/** `ArrayList<E>`: a growable array. The backing array is kept explicitly
    (`list`, whose length is the capacity); the live elements occupy slots
    0 .. size-1 and every later slot is null. Each mutator takes the list and
    returns the new list, or the exception the Java method throws. */
module ArrayLists {
  import opened Outcomes
  import opened Orders

  /** Capacity of a list made with the no-argument constructor. */
  const INIT_SIZE: int := 1000

  datatype ArrayList<E> = ArrayList(list: seq<Option<E>>, size: int) {

    /** Slots below `size` hold elements, slots from `size` on are null. */
    ghost predicate Valid() {
      && 0 <= size <= |list|
      && forall i :: 0 <= i < |list| ==> (list[i].Some? <==> i < size)
    }

    function Capacity(): int {
      |list|
    }

    /** The live elements, in order. */
    function Elements(): (s: seq<E>)
      requires Valid()
      ensures |s| == size
      ensures forall i :: 0 <= i < size ==> list[i] == Some(s[i])
    {
      seq(size, i requires 0 <= i < size && Valid() => list[i].value)
    }
  }

  /** A list with the given live elements and capacity. */
  function FromElements<E>(s: seq<E>, capacity: int): (r: ArrayList<E>)
    requires |s| <= capacity
    ensures r.Valid() && r.Elements() == s && r.Capacity() == capacity
  {
    var r := ArrayList(seq(capacity, i requires 0 <= i < capacity => if i < |s| then Some(s[i]) else None), |s|);
    assert r.Elements() == s;
    r
  }

  /** `ArrayList(int capacity)`: Java refuses a negative array size. */
  function New<E>(capacity: int): (r: Result<ArrayList<E>>)
    ensures r.Ok? <==> capacity >= 0
    ensures r.Err? ==> r.exc == NegativeArraySize
    ensures r.Ok? ==> r.value.Valid() && r.value.Elements() == [] && r.value.Capacity() == capacity
  {
    if capacity < 0 then Err(NegativeArraySize)
    else FromElementsOk(capacity)
  }

  function FromElementsOk<E>(capacity: int): (r: Result<ArrayList<E>>)
    requires capacity >= 0
    ensures r.Ok? && r.value.Valid() && r.value.Elements() == [] && r.value.Capacity() == capacity
  {
    Ok(FromElements([], capacity))
  }

  /** `ArrayList()`: an empty list of capacity 1000. */
  function Empty<E>(): (r: ArrayList<E>)
    ensures r.Valid() && r.Elements() == [] && r.Capacity() == INIT_SIZE
  {
    New(INIT_SIZE).value
  }

  /** `growArray`: a backing array twice as long, the live slots copied over. */
  method GrowArray<E>(l: ArrayList<E>) returns (r: ArrayList<E>)
    requires l.Valid()
    ensures r.Valid() && r.Elements() == l.Elements()
    ensures r.Capacity() == 2 * l.Capacity()
  {
    var capacity := 2 * |l.list|;
    var temp: seq<Option<E>> := seq(capacity, _ => None);
    var i := 0;
    while i < l.size
      invariant 0 <= i <= l.size
      invariant |temp| == capacity
      invariant forall k :: 0 <= k < i ==> temp[k] == l.list[k]
      invariant forall k :: i <= k < capacity ==> temp[k] == None
    {
      temp := temp[i := l.list[i]];
      i := i + 1;
    }
    r := ArrayList(temp, l.size);
    assert r.Elements() == l.Elements();
  }

  /** The right shift of `add(int, E)` and `addSorted` followed by the store
      at `idx`; the caller has already made room. */
  method ShiftInsert<E>(a: ArrayList<E>, idx: int, element: E) returns (r: ArrayList<E>)
    requires a.Valid()
    requires 0 <= idx <= a.size < a.Capacity()
    ensures r.Valid() && r.Capacity() == a.Capacity()
    ensures r.Elements() == a.Elements()[..idx] + [element] + a.Elements()[idx..]
  {
    var list := a.list;
    var i := a.size;
    while i > idx
      invariant idx <= i <= a.size
      invariant |list| == |a.list|
      invariant forall k :: 0 <= k <= i ==> list[k] == a.list[k]
      invariant forall k :: i < k <= a.size ==> list[k] == a.list[k - 1]
      invariant forall k :: a.size < k < |list| ==> list[k] == a.list[k]
    {
      list := list[i := list[i - 1]];
      i := i - 1;
    }
    list := list[idx := Some(element)];
    r := ArrayList(list, a.size + 1);
    assert r.Valid();
    assert r.Elements() == a.Elements()[..idx] + [element] + a.Elements()[idx..];
  }

  /** `add(int idx, E element)`: null is refused first, then an index outside
      [0, size]; a full list doubles its capacity before the shift. A list of
      capacity 0 stays at capacity 0 when doubled, so its store fails. */
  method Add<E>(l: ArrayList<E>, idx: int, element: Option<E>) returns (r: Result<ArrayList<E>>)
    requires l.Valid()
    ensures element.None? ==> r == Err(NullPointer)
    ensures element.Some? && !(0 <= idx <= l.size) ==> r == Err(IndexOutOfBounds)
    ensures element.Some? && 0 <= idx <= l.size && l.Capacity() == 0 ==>
              r == Err(ArrayIndexOutOfBounds)
    ensures element.Some? && 0 <= idx <= l.size && l.Capacity() > 0 ==>
              && r.Ok? && r.value.Valid()
              && r.value.Elements() == l.Elements()[..idx] + [element.value] + l.Elements()[idx..]
              && r.value.Capacity() == (if l.size == l.Capacity() then 2 * l.Capacity() else l.Capacity())
  {
    if element.None? {
      return Err(NullPointer);
    }
    if idx < 0 || idx > l.size {
      return Err(IndexOutOfBounds);
    }
    var a := l;
    if a.size == a.Capacity() {
      a := GrowArray(a);
    }
    if idx >= a.Capacity() {
      return Err(ArrayIndexOutOfBounds);
    }
    var shifted := ShiftInsert(a, idx, element.value);
    return Ok(shifted);
  }

  /** `add(E)`: append at index `size`. */
  method Append<E>(l: ArrayList<E>, element: Option<E>) returns (r: Result<ArrayList<E>>)
    requires l.Valid()
    ensures element.None? ==> r == Err(NullPointer)
    ensures element.Some? && l.Capacity() == 0 ==> r == Err(ArrayIndexOutOfBounds)
    ensures element.Some? && l.Capacity() > 0 ==>
              && r.Ok? && r.value.Valid() && r.value.Elements() == l.Elements() + [element.value]
              && r.value.Capacity() == (if l.size == l.Capacity() then 2 * l.Capacity() else l.Capacity())
  {
    r := Add(l, l.size, element);
    assert l.Elements()[..l.size] == l.Elements() && l.Elements()[l.size..] == [];
  }

  /** `remove(int idx)`: returns the removed element, shifts the tail left
      and nulls the slot that became free. */
  method Remove<E>(l: ArrayList<E>, idx: int) returns (r: Result<(E, ArrayList<E>)>)
    requires l.Valid()
    ensures !(0 <= idx < l.size) ==> r == Err(IndexOutOfBounds)
    ensures 0 <= idx < l.size ==>
              && r.Ok? && r.value.0 == l.Elements()[idx]
              && r.value.1.Valid() && r.value.1.Capacity() == l.Capacity()
              && r.value.1.Elements() == l.Elements()[..idx] + l.Elements()[idx + 1..]
  {
    if idx < 0 || idx >= l.size {
      return Err(IndexOutOfBounds);
    }
    var temp := l.list[idx].value;
    var list := l.list;
    var i := idx;
    while i < l.size - 1
      invariant idx <= i <= l.size - 1
      invariant |list| == |l.list|
      invariant forall k :: 0 <= k < idx ==> list[k] == l.list[k]
      invariant forall k :: idx <= k < i ==> list[k] == l.list[k + 1]
      invariant forall k :: i <= k < |list| ==> list[k] == l.list[k]
    {
      list := list[i := list[i + 1]];
      i := i + 1;
    }
    list := list[l.size - 1 := None];
    var shrunk := ArrayList(list, l.size - 1);
    assert shrunk.Valid();
    assert shrunk.Elements() == l.Elements()[..idx] + l.Elements()[idx + 1..];
    return Ok((temp, shrunk));
  }

  /** `set(int idx, E element)`: returns the element it overwrote. */
  function Set<E>(l: ArrayList<E>, idx: int, element: Option<E>): (r: Result<(E, ArrayList<E>)>)
    requires l.Valid()
    ensures element.None? ==> r == Err(NullPointer)
    ensures element.Some? && !(0 <= idx < l.size) ==> r == Err(IndexOutOfBounds)
    ensures element.Some? && 0 <= idx < l.size ==>
              && r.Ok? && r.value.0 == l.Elements()[idx]
              && r.value.1.Valid() && r.value.1.Capacity() == l.Capacity()
              && r.value.1.Elements() == l.Elements()[idx := element.value]
  {
    if element.None? then Err(NullPointer)
    else if idx < 0 || idx >= l.size then Err(IndexOutOfBounds)
    else
      var r := ArrayList(l.list[idx := element], l.size);
      assert r.Valid();
      assert r.Elements() == l.Elements()[idx := element.value];
      Ok((l.list[idx].value, r))
  }

  /** `get(int idx)`. */
  function Get<E>(l: ArrayList<E>, idx: int): (r: Result<E>)
    requires l.Valid()
    ensures r.Ok? <==> 0 <= idx < l.size
    ensures r.Err? ==> r.exc == IndexOutOfBounds
    ensures r.Ok? ==> r.value == l.Elements()[idx]
  {
    if idx < 0 || idx >= l.size then Err(IndexOutOfBounds)
    else Ok(l.list[idx].value)
  }

  /** `size()`. */
  function Size<E>(l: ArrayList<E>): (n: int)
    requires l.Valid()
    ensures n == |l.Elements()|
  {
    l.size
  }

  /** `get` after `set` sees the new element at that index and the old
      elements everywhere else. */
  lemma GetAfterSet<E>(l: ArrayList<E>, idx: int, element: E, j: int)
    requires l.Valid() && 0 <= idx < l.size
    ensures Set(l, idx, Some(element)).Ok?
    ensures Get(Set(l, idx, Some(element)).value.1, j) ==
              if j == idx then Ok(element) else Get(l, j)
  {
  }

  // ---------------------------------------------------------------------
  // Sorted insertion

  /** Position `k` holds the first element strictly greater than `e`. */
  ghost predicate IsFirstGreater<E>(cmp: (E, E) -> int, s: seq<E>, e: E, k: int) {
    && 0 <= k < |s| && cmp(s[k], e) > 0
    && forall j :: 0 <= j < k ==> cmp(s[j], e) <= 0
  }

  /** `addSorted(E e)` as written, under the natural order `cmp` of E. The
      append fast path is taken only when the last element is strictly
      smaller, and it stores into slot `size` without growing, so on a full
      list it fails. Otherwise a full list grows, then the scan inserts
      before the first strictly greater element, or reports `false` when
      there is none. */
  method AddSorted<E>(l: ArrayList<E>, e: E, cmp: (E, E) -> int) returns (r: Result<(bool, ArrayList<E>)>)
    requires l.Valid()
    ensures l.size == 0 ==>
              if l.Capacity() == 0 then r == Err(ArrayIndexOutOfBounds)
              else r.Ok? && r.value.0 && r.value.1.Valid() && r.value.1.Elements() == [e]
                   && r.value.1.Capacity() == l.Capacity()
    ensures l.size > 0 && cmp(l.Elements()[l.size - 1], e) < 0 ==>
              if l.size == l.Capacity() then r == Err(ArrayIndexOutOfBounds)
              else r.Ok? && r.value.0 && r.value.1.Valid() && r.value.1.Elements() == l.Elements() + [e]
                   && r.value.1.Capacity() == l.Capacity()
    ensures l.size > 0 && cmp(l.Elements()[l.size - 1], e) >= 0 ==>
              && r.Ok? && r.value.1.Valid()
              && r.value.1.Capacity() == (if l.size == l.Capacity() then 2 * l.Capacity() else l.Capacity())
              && (r.value.0 <==> exists k :: 0 <= k < l.size && cmp(l.Elements()[k], e) > 0)
              && (r.value.0 ==> exists k :: IsFirstGreater(cmp, l.Elements(), e, k)
                                  && r.value.1.Elements() == l.Elements()[..k] + [e] + l.Elements()[k..])
              && (!r.value.0 ==> r.value.1.Elements() == l.Elements())
  {
    if l.size == 0 {
      if l.Capacity() == 0 {
        return Err(ArrayIndexOutOfBounds);
      }
      var first := ShiftInsert(l, 0, e);
      return Ok((true, first));
    } else if cmp(l.list[l.size - 1].value, e) < 0 {
      if l.size == l.Capacity() {
        return Err(ArrayIndexOutOfBounds);
      }
      var appended := ShiftInsert(l, l.size, e);
      assert l.Elements()[..l.size] == l.Elements() && l.Elements()[l.size..] == [];
      return Ok((true, appended));
    }
    var a := l;
    if a.size == a.Capacity() {
      a := GrowArray(a);
    }
    r := ScanInsert(a, e, cmp);
  }

  /** The scan shared by both versions of `addSorted`. */
  method ScanInsert<E>(a: ArrayList<E>, e: E, cmp: (E, E) -> int) returns (r: Result<(bool, ArrayList<E>)>)
    requires a.Valid() && a.size < a.Capacity()
    ensures && r.Ok? && r.value.1.Valid() && r.value.1.Capacity() == a.Capacity()
            && (r.value.0 <==> exists k :: 0 <= k < a.size && cmp(a.Elements()[k], e) > 0)
            && (r.value.0 ==> exists k :: IsFirstGreater(cmp, a.Elements(), e, k)
                                && r.value.1.Elements() == a.Elements()[..k] + [e] + a.Elements()[k..])
            && (!r.value.0 ==> r.value.1.Elements() == a.Elements())
  {
    var i := 0;
    while i < a.size
      invariant 0 <= i <= a.size
      invariant forall k :: 0 <= k < i ==> cmp(a.Elements()[k], e) <= 0
    {
      if cmp(a.list[i].value, e) > 0 {
        var inserted := ShiftInsert(a, i, e);
        assert IsFirstGreater(cmp, a.Elements(), e, i);
        return Ok((true, inserted));
      }
      i := i + 1;
    }
    return Ok((false, a));
  }

  /** `addSorted` with the growth rule of `add`: a full list grows before
      either path stores, so only a list of capacity 0 fails. */
  method AddSortedGrowing<E>(l: ArrayList<E>, e: E, cmp: (E, E) -> int) returns (r: Result<(bool, ArrayList<E>)>)
    requires l.Valid()
    ensures l.Capacity() == 0 ==> r == Err(ArrayIndexOutOfBounds)
    ensures l.Capacity() > 0 ==> r.Ok? && r.value.1.Valid()
    ensures l.Capacity() > 0 && (l.size == 0 || cmp(l.Elements()[l.size - 1], e) < 0) ==>
              r.Ok? && r.value.0 && r.value.1.Elements() == l.Elements() + [e]
    ensures l.Capacity() > 0 && l.size > 0 && cmp(l.Elements()[l.size - 1], e) >= 0 ==>
              && r.Ok?
              && (r.value.0 <==> exists k :: 0 <= k < l.size && cmp(l.Elements()[k], e) > 0)
              && (r.value.0 ==> exists k :: IsFirstGreater(cmp, l.Elements(), e, k)
                                  && r.value.1.Elements() == l.Elements()[..k] + [e] + l.Elements()[k..])
              && (!r.value.0 ==> r.value.1.Elements() == l.Elements())
  {
    if l.Capacity() == 0 {
      return Err(ArrayIndexOutOfBounds);
    }
    var a := l;
    if a.size == a.Capacity() {
      a := GrowArray(a);
    }
    if a.size == 0 || cmp(a.list[a.size - 1].value, e) < 0 {
      var appended := ShiftInsert(a, a.size, e);
      assert a.Elements()[..a.size] == a.Elements() && a.Elements()[a.size..] == [];
      return Ok((true, appended));
    }
    r := ScanInsert(a, e, cmp);
  }

  /** The list [1] at capacity 1 and the larger element 2: as written, the
      append fast path stores past the end of the backing array; with the
      growth rule the element is appended. */
  method AddSortedOnFullList() returns (asWritten: Result<(bool, ArrayList<int>)>,
                                        growing: Result<(bool, ArrayList<int>)>)
    ensures asWritten == Err(ArrayIndexOutOfBounds)
    ensures growing.Ok? && growing.value.0 && growing.value.1.Valid() && growing.value.1.Elements() == [1, 2]
  {
    var l := FromElements([1], 1);
    asWritten := AddSorted(l, 2, (x: int, y: int) => x - y);
    growing := AddSortedGrowing(l, 2, (x: int, y: int) => x - y);
  }

  /** On a sorted list the scan position keeps the list sorted. */
  lemma InsertAtFirstGreaterSorted<E(!new)>(cmp: (E, E) -> int, s: seq<E>, e: E, k: int)
    requires IsComparator(cmp) && SortedBy(cmp, s)
    requires IsFirstGreater(cmp, s, e, k)
    ensures SortedBy(cmp, s[..k] + [e] + s[k..])
  {
    var t := s[..k] + [e] + s[k..];
    forall i, j | 0 <= i < j < |t|
      ensures cmp(t[i], t[j]) <= 0
    {
      if j < k {
        assert t[i] == s[i] && t[j] == s[j];
      } else if j == k {
        assert t[i] == s[i] && t[j] == e;
      } else if i == k {
        assert t[j] == s[j - 1];
        assert cmp(s[k], s[j - 1]) <= 0 || k == j - 1;
        ComparatorFlip(cmp, s[k], e);
        if k < j - 1 {
          ComparatorStrictLeft(cmp, e, s[k], s[j - 1]);
        }
      } else if i < k {
        assert t[i] == s[i] && t[j] == s[j - 1];
      } else {
        assert t[i] == s[i - 1] && t[j] == s[j - 1];
      }
    }
  }

  /** Appending an element above the last keeps a sorted list sorted. */
  lemma AppendAboveLastSorted<E(!new)>(cmp: (E, E) -> int, s: seq<E>, e: E)
    requires IsComparator(cmp) && SortedBy(cmp, s)
    requires |s| == 0 || cmp(s[|s| - 1], e) < 0
    ensures SortedBy(cmp, s + [e])
  {
    var t := s + [e];
    forall i, j | 0 <= i < j < |t|
      ensures cmp(t[i], t[j]) <= 0
    {
      if j == |s| && i < |s| - 1 {
        ComparatorStrictRight(cmp, s[i], s[|s| - 1], e);
      }
    }
  }

  /** On a sorted list, when `e` is not above the last element (so the fast
      path is not taken), the scan of `addSorted` finds a strictly greater
      element exactly when the last element is strictly greater than `e`:
      it declines exactly an `e` equal to the current maximum. */
  lemma AddSortedOnSortedList<E(!new)>(cmp: (E, E) -> int, s: seq<E>, e: E)
    requires IsComparator(cmp) && SortedBy(cmp, s) && |s| > 0
    ensures cmp(s[|s| - 1], e) >= 0 ==>
              ((exists k :: 0 <= k < |s| && cmp(s[k], e) > 0) <==> cmp(s[|s| - 1], e) > 0)
  {
    if cmp(s[|s| - 1], e) >= 0 {
      if exists k :: 0 <= k < |s| && cmp(s[k], e) > 0 {
        var k :| 0 <= k < |s| && cmp(s[k], e) > 0;
        if k < |s| - 1 {
          ComparatorFlip(cmp, s[k], e);
          ComparatorStrictLeft(cmp, e, s[k], s[|s| - 1]);
          ComparatorFlip(cmp, e, s[|s| - 1]);
        }
      }
    }
  }

  // ---------------------------------------------------------------------
  // Search

  /** `binarySearch(e, low, high, c)`. The midpoint is only used when
      low <= high, where both are non-negative, so Java's truncating division
      agrees with Dafny's. The final `else` throws only when `c` is not a
      comparator. */
  function BinarySearch<E(!new)>(l: ArrayList<E>, e: E, low: int, high: int, c: (E, E) -> int): (r: Result<int>)
    requires l.Valid()
    requires 0 <= low <= high + 1 <= l.size
    decreases high - low
    ensures r.Ok? ==> r.value == -1 || (low <= r.value <= high && c(l.Elements()[r.value], e) == 0)
    ensures r.Err? ==> r.exc == IllegalArgument
    ensures IsComparator(c) ==> r.Ok?
    ensures IsComparator(c) && SortedBy(c, l.Elements()) && r == Ok(-1) ==>
              forall k :: low <= k <= high ==> c(l.Elements()[k], e) != 0
  {
    if low > high then Ok(-1)
    else
      var pivot := (high + low) / 2;
      var p := l.list[pivot].value;
      if c(p, e) == 0 then Ok(pivot)
      else if c(e, p) < 0 then
        var r := BinarySearch(l, e, low, pivot - 1, c);
        assert IsComparator(c) && SortedBy(c, l.Elements()) && r == Ok(-1) ==>
                 forall k :: pivot <= k <= high ==> c(l.Elements()[k], e) != 0 by {
          if IsComparator(c) && SortedBy(c, l.Elements()) {
            forall k | pivot <= k <= high
              ensures c(l.Elements()[k], e) != 0
            {
              if k > pivot {
                ComparatorStrictLeft(c, e, p, l.Elements()[k]);
              }
              ComparatorFlip(c, e, l.Elements()[k]);
            }
          }
        }
        r
      else if c(e, p) > 0 then
        var r := BinarySearch(l, e, pivot + 1, high, c);
        assert IsComparator(c) && SortedBy(c, l.Elements()) && r == Ok(-1) ==>
                 forall k :: low <= k <= pivot ==> c(l.Elements()[k], e) != 0 by {
          if IsComparator(c) && SortedBy(c, l.Elements()) {
            forall k | low <= k <= pivot
              ensures c(l.Elements()[k], e) != 0
            {
              ComparatorFlip(c, e, p);
              if k < pivot {
                ComparatorStrictRight(c, l.Elements()[k], p, e);
              }
            }
          }
        }
        r
      else
        assert IsComparator(c) ==> false by {
          if IsComparator(c) {
            ComparatorFlip(c, p, e);
          }
        }
        Err(IllegalArgument)
  }

  /** `contains(e, c)`: an index whose element compares equal to `e`, or -1.
      On a list sorted by a comparator, -1 means no element compares equal. */
  function Contains<E(!new)>(l: ArrayList<E>, e: E, c: (E, E) -> int): (r: Result<int>)
    requires l.Valid()
    ensures l.size == 0 ==> r == Ok(-1)
    ensures r.Ok? ==> r.value == -1 || (0 <= r.value < l.size && c(l.Elements()[r.value], e) == 0)
    ensures IsComparator(c) ==> r.Ok?
    ensures IsComparator(c) && SortedBy(c, l.Elements()) ==>
              (r == Ok(-1) <==> forall k :: 0 <= k < l.size ==> c(l.Elements()[k], e) != 0)
  {
    if l.size == 0 then Ok(-1)
    else BinarySearch(l, e, 0, l.size - 1, c)
  }

  // ---------------------------------------------------------------------
  // Sorting

  /** The last element of s[lo..hi+1] is strictly above all the others. */
  ghost predicate StrictMaxAtHigh<E>(c: (E, E) -> int, s: seq<E>, lo: int, hi: int)
    requires 0 <= lo <= hi < |s|
  {
    forall k :: lo <= k < hi ==> c(s[k], s[hi]) < 0
  }

  /** Termination measure of `quickSort`. The left recursive call keeps the
      pivot, so its range can be as long as the caller's; that happens only
      when every other element is below the pivot, and then the pivot ends
      up as a strict maximum at the top of the range, which the next call
      splits off. */
  ghost function SortMeasure<E>(c: (E, E) -> int, s: seq<E>, lo: int, hi: int): nat {
    if hi <= lo || lo < 0 || hi >= |s| then 0
    else 2 * (hi - lo) + (if StrictMaxAtHigh(c, s, lo, hi) then 0 else 1)
  }

  /** `a` is `s` with only the slots in [low, high] rearranged. */
  ghost predicate PermutedWithin<E>(a: seq<E>, s: seq<E>, low: int, high: int) {
    && |a| == |s|
    && (forall k :: 0 <= k < |s| && !(low <= k <= high) ==> a[k] == s[k])
    && multiset(a) == multiset(s)
  }

  /** Exchanging two slots inside [low, high] is such a rearrangement. */
  lemma SwapInRange<E>(a: seq<E>, s: seq<E>, i: int, j: int, low: int, high: int)
    requires 0 <= low <= i <= high < |a| && low <= j <= high
    requires PermutedWithin(a, s, low, high)
    ensures PermutedWithin(a[i := a[j]][j := a[i]], s, low, high)
  {
  }

  lemma PermutedWithinTransitive<E>(a: seq<E>, b: seq<E>, s: seq<E>, low: int, high: int)
    requires PermutedWithin(a, b, low, high) && PermutedWithin(b, s, low, high)
    ensures PermutedWithin(a, s, low, high)
  {
  }

  /** A rearrangement of a sub-range is a rearrangement of any range around it. */
  lemma PermutedWithinWiden<E>(a: seq<E>, s: seq<E>, lo: int, hi: int, low: int, high: int)
    requires low <= lo && hi <= high
    requires PermutedWithin(a, s, lo, hi)
    ensures PermutedWithin(a, s, low, high)
  {
  }

  lemma MultisetCancel<E>(x: multiset<E>, m: multiset<E>, n: multiset<E>, y: multiset<E>)
    requires x + m + y == x + n + y
    ensures m == n
  {
    forall e
      ensures m[e] == n[e]
    {
      assert (x + m + y)[e] == (x + n + y)[e];
    }
  }

  /** The slice that was rearranged is a permutation of the original slice. */
  lemma PermutedWithinSlice<E>(a: seq<E>, s: seq<E>, low: int, high: int)
    requires 0 <= low <= high + 1 <= |s|
    requires PermutedWithin(a, s, low, high)
    ensures multiset(a[low..high + 1]) == multiset(s[low..high + 1])
  {
    assert a == a[..low] + a[low..high + 1] + a[high + 1..];
    assert s == s[..low] + s[low..high + 1] + s[high + 1..];
    assert a[..low] == s[..low] && a[high + 1..] == s[high + 1..];
    MultisetCancel(multiset(s[..low]), multiset(a[low..high + 1]), multiset(s[low..high + 1]), multiset(s[high + 1..]));
  }

  /** The scan of the partition step: with the pivot parked at `low`, every
      element of (low, high] strictly below it is swapped down to `first`,
      which then points just past them. */
  method GatherBelow<E>(b: seq<E>, c: (E, E) -> int, low: int, high: int, pivot: E)
      returns (a: seq<E>, first: int)
    requires 0 <= low < high < |b|
    ensures low + 1 <= first <= high + 1
    ensures PermutedWithin(a, b, low + 1, high) && a[low] == b[low]
    ensures forall k :: low + 1 <= k < first ==> c(a[k], pivot) < 0
    ensures forall k :: first <= k <= high ==> c(a[k], pivot) >= 0
    ensures first == high + 1 ==> forall k :: low + 1 <= k <= high ==> c(b[k], pivot) < 0
  {
    a := b;
    first := low + 1;
    var i := low + 1;
    while i <= high
      invariant low + 1 <= first <= i <= high + 1
      invariant PermutedWithin(a, b, low + 1, high) && a[low] == b[low]
      invariant forall k :: low + 1 <= k < first ==> c(a[k], pivot) < 0
      invariant forall k :: first <= k < i ==> c(a[k], pivot) >= 0
      invariant forall k :: i <= k <= high ==> a[k] == b[k]
      invariant first == i ==> forall k :: low + 1 <= k < i ==> c(b[k], pivot) < 0
    {
      if c(a[i], pivot) < 0 {
        SwapInRange(a, b, i, first, low + 1, high);
        a := a[i := a[first]][first := a[i]];
        first := first + 1;
      }
      i := i + 1;
    }
  }

  /** The partition step of `quickSort`: the pivot at `pivotIdx` is moved to
      `low`, the elements strictly below it are gathered after it, and the
      pivot is then exchanged into slot `first - 1`. */
  method Partition<E(!new)>(s: seq<E>, c: (E, E) -> int, low: int, high: int, pivotIdx: int)
      returns (p: seq<E>, first: int)
    requires 0 <= low < pivotIdx < high < |s|
    ensures low + 1 <= first <= high + 1
    ensures PermutedWithin(p, s, low, high)
    ensures p[first - 1] == s[pivotIdx]
    ensures forall k :: low <= k < first - 1 ==> c(p[k], s[pivotIdx]) < 0
    ensures forall k :: first <= k <= high ==> c(p[k], s[pivotIdx]) >= 0
    ensures first == high + 1 ==> c(s[high], s[pivotIdx]) < 0
  {
    var pivot := s[pivotIdx];
    SwapInRange(s, s, pivotIdx, low, low, high);
    var b := s[pivotIdx := s[low]][low := pivot];
    var a;
    a, first := GatherBelow(b, c, low, high, pivot);
    PermutedWithinWiden(a, b, low + 1, high, low, high);
    PermutedWithinTransitive(a, b, s, low, high);
    SwapInRange(a, s, low, first - 1, low, high);
    p := a[low := a[first - 1]][first - 1 := pivot];
    assert first == high + 1 ==> c(b[high], pivot) < 0;
  }

  /** A permutation keeps every element on the same side of a bound. */
  lemma PermutationKeepsBound<E>(c: (E, E) -> int, s: seq<E>, t: seq<E>, bound: E, below: bool)
    requires multiset(s) == multiset(t)
    requires forall k :: 0 <= k < |s| ==> (if below then c(s[k], bound) <= 0 else c(bound, s[k]) <= 0)
    ensures forall k :: 0 <= k < |t| ==> (if below then c(t[k], bound) <= 0 else c(bound, t[k]) <= 0)
  {
    forall k | 0 <= k < |t|
      ensures if below then c(t[k], bound) <= 0 else c(bound, t[k]) <= 0
    {
      assert t[k] in multiset(s);
      var j :| 0 <= j < |s| && s[j] == t[k];
    }
  }

  /** Every element of `s` is at least `bound`. */
  ghost predicate AllAtLeast<E>(c: (E, E) -> int, bound: E, s: seq<E>) {
    forall k :: 0 <= k < |s| ==> c(bound, s[k]) <= 0
  }

  /** Two sorted runs, the first entirely at or below a bound and the second
      at or above it, make one sorted run. */

  lemma SortedAroundBound<E(!new)>(c: (E, E) -> int, x: seq<E>, y: seq<E>, bound: E)
    requires IsComparator(c) && SortedBy(c, x) && SortedBy(c, y)
    requires forall k :: 0 <= k < |x| ==> c(x[k], bound) <= 0
    requires AllAtLeast(c, bound, y)
    ensures SortedBy(c, x + y)
  {
    var t := x + y;
    forall i, j | 0 <= i < j < |t|
      ensures c(t[i], t[j]) <= 0
    {
      if i < |x| && j >= |x| {
        ComparatorTransitive(c, x[i], bound, y[j - |x|]);
      }
    }
  }

  /** `quickSort(c, low, high)` on the backing elements; the random pivot is
      any index in [low+1, high-1]. Requires a comparator: with an
      inconsistent `c` the Java recursion need not terminate. */
  method QuickSort<E(!new)>(s: seq<E>, c: (E, E) -> int, low: int, high: int) returns (r: seq<E>)
    requires IsComparator(c)
    requires 0 <= low <= high + 1 <= |s|
    ensures PermutedWithin(r, s, low, high)
    ensures SortedBy(c, r[low..high + 1])
    decreases SortMeasure(c, s, low, high)
  {
    if high <= low {
      return s;
    } else if high - (low + 1) == 0 {
      r := SortTwo(s, c, low);
      return r;
    }
    var pivotIdx :| low + 1 <= pivotIdx < high;
    var p, first := Partition(s, c, low, high, pivotIdx);
    LeftCallDecreases(c, s, p, low, first, high, pivotIdx);
    var left := QuickSort(p, c, low, first - 1);
    RightCallDecreases(c, s, left, low, first, high);
    var right := QuickSort(left, c, first, high);
    CombineSorted(c, s, p, left, right, low, first, high, s[pivotIdx]);
    r := right;
  }

  /** The two-element case of `quickSort`: a range of two is put in order by at
      most one exchange. */
  method SortTwo<E(!new)>(s: seq<E>, c: (E, E) -> int, low: int) returns (r: seq<E>)
    requires IsComparator(c)
    requires 0 <= low && low + 1 < |s|
    ensures PermutedWithin(r, s, low, low + 1)
    ensures SortedBy(c, r[low..low + 2])
  {
    var high := low + 1;
    if c(s[low], s[high]) > 0 {
      SwapInRange(s, s, low, high, low, high);
      r := s[low := s[high]][high := s[low]];
      ComparatorFlip(c, s[low], s[high]);
    } else {
      r := s;
    }
    assert r[low..low + 2] == [r[low], r[high]];
  }

  /** The left recursive call of `quickSort` works on a smaller measure:
      either its range is shorter, or the pivot has become the strict
      maximum at its top. */
  lemma LeftCallDecreases<E(!new)>(c: (E, E) -> int, s: seq<E>, p: seq<E>, low: int, first: int, high: int,
                                   pivotIdx: int)
    requires IsComparator(c)
    requires 0 <= low < pivotIdx < high < |s| && |p| == |s|
    requires low + 1 <= first <= high + 1
    requires p[first - 1] == s[pivotIdx]
    requires forall k :: low <= k < first - 1 ==> c(p[k], s[pivotIdx]) < 0
    requires first == high + 1 ==> c(s[high], s[pivotIdx]) < 0
    ensures SortMeasure(c, p, low, first - 1) < SortMeasure(c, s, low, high)
  {
    if first - 1 == high {
      ComparatorFlip(c, s[high], s[pivotIdx]);
      assert !StrictMaxAtHigh(c, s, low, high);
      assert StrictMaxAtHigh(c, p, low, high);
    }
  }

  /** The right recursive call of `quickSort` always has a shorter range. */
  lemma RightCallDecreases<E>(c: (E, E) -> int, s: seq<E>, left: seq<E>, low: int, first: int, high: int)
    requires 0 <= low < first && low + 2 <= high < |s| && |left| == |s|
    ensures SortMeasure(c, left, first, high) < SortMeasure(c, s, low, high)
  {
  }

  /** After both recursive calls the whole range is a sorted rearrangement. */
  lemma CombineSorted<E(!new)>(c: (E, E) -> int, s: seq<E>, p: seq<E>, left: seq<E>, right: seq<E>,
                               low: int, first: int, high: int, pivot: E)
    requires IsComparator(c)
    requires 0 <= low < first <= high + 1 <= |p|
    requires PermutedWithin(p, s, low, high)
    requires p[first - 1] == pivot
    requires forall k :: low <= k < first - 1 ==> c(p[k], pivot) < 0
    requires forall k :: first <= k <= high ==> c(p[k], pivot) >= 0
    requires PermutedWithin(left, p, low, first - 1) && SortedBy(c, left[low..first])
    requires PermutedWithin(right, left, first, high) && SortedBy(c, right[first..high + 1])
    ensures PermutedWithin(right, s, low, high)
    ensures SortedBy(c, right[low..high + 1])
  {
    PermutedWithinWiden(left, p, low, first - 1, low, high);
    PermutedWithinWiden(right, left, first, high, low, high);
    PermutedWithinTransitive(left, p, s, low, high);
    PermutedWithinTransitive(right, left, s, low, high);
    SortedAfterPartition(c, p, left, right, low, first, high, pivot);
  }

  /** After the left call, everything left of `first` is at most the pivot. */
  lemma LowerSideBelowPivot<E>(c: (E, E) -> int, p: seq<E>, left: seq<E>, right: seq<E>,
                               low: int, first: int, high: int, pivot: E)
    requires c(pivot, pivot) == 0
    requires 0 <= low < first <= high + 1 <= |p|
    requires p[first - 1] == pivot
    requires forall k :: low <= k < first - 1 ==> c(p[k], pivot) < 0
    requires PermutedWithin(left, p, low, first - 1)
    requires PermutedWithin(right, left, first, high)
    ensures forall k :: 0 <= k < |right[low..first]| ==> c(right[low..first][k], pivot) <= 0
  {
    var lower := p[low..first];
    forall k | 0 <= k < |lower|
      ensures c(lower[k], pivot) <= 0
    {
      assert lower[k] == p[low + k];
    }
    assert right[low..first] == left[low..first];
    PermutedWithinSlice(left, p, low, first - 1);
    PermutationKeepsBound(c, lower, right[low..first], pivot, true);
  }

  /** After the right call, everything from `first` on is at least the pivot. */
  lemma UpperSideAbovePivot<E(!new)>(c: (E, E) -> int, p: seq<E>, left: seq<E>, right: seq<E>,
                                     low: int, first: int, high: int, pivot: E)
    requires IsComparator(c)
    requires 0 <= low < first <= high + 1 <= |p|
    requires forall k :: first <= k <= high ==> c(p[k], pivot) >= 0
    requires PermutedWithin(left, p, low, first - 1)
    requires PermutedWithin(right, left, first, high)
    ensures AllAtLeast(c, pivot, right[first..high + 1])
  {
    var upper := p[first..high + 1];
    forall k | 0 <= k < |upper|
      ensures c(pivot, upper[k]) <= 0
    {
      ComparatorFlip(c, pivot, p[first + k]);
    }
    assert left[first..high + 1] == upper;
    PermutedWithinSlice(right, left, first, high);
    PermutationKeepsBound(c, upper, right[first..high + 1], pivot, false);
  }

  /** Sorting the two sides of a partition sorts the whole range. */
  lemma SortedAfterPartition<E(!new)>(c: (E, E) -> int, p: seq<E>, left: seq<E>, right: seq<E>,
                                      low: int, first: int, high: int, pivot: E)
    requires IsComparator(c)
    requires 0 <= low < first <= high + 1 <= |p|
    requires p[first - 1] == pivot
    requires forall k :: low <= k < first - 1 ==> c(p[k], pivot) < 0
    requires forall k :: first <= k <= high ==> c(p[k], pivot) >= 0
    requires PermutedWithin(left, p, low, first - 1) && SortedBy(c, left[low..first])
    requires PermutedWithin(right, left, first, high) && SortedBy(c, right[first..high + 1])
    ensures SortedBy(c, right[low..high + 1])
  {
    ComparatorReflexive(c, pivot);
    LowerSideBelowPivot(c, p, left, right, low, first, high, pivot);
    UpperSideAbovePivot(c, p, left, right, low, first, high, pivot);
    assert right[low..first] == left[low..first];
    assert right[low..high + 1] == right[low..first] + right[first..high + 1];
    SortedAroundBound(c, right[low..first], right[first..high + 1], pivot);
  }

  /** `sort(c)`: the live elements are reordered into ascending order. */
  method Sort<E(!new)>(l: ArrayList<E>, c: (E, E) -> int) returns (r: ArrayList<E>)
    requires l.Valid() && IsComparator(c)
    ensures r.Valid() && r.Capacity() == l.Capacity() && r.size == l.size
    ensures multiset(r.Elements()) == multiset(l.Elements())
    ensures SortedBy(c, r.Elements())
  {
    var s := QuickSort(l.Elements(), c, 0, l.size - 1);
    assert s == s[0..l.size] && l.Elements() == l.Elements()[0..l.size];
    r := FromElements(s, l.Capacity());
  }

  /** Two sorted permutations of each other start with the same element,
      when the comparator ties no two different elements of them. */
  lemma SortedHeadsEqual<E(!new)>(c: (E, E) -> int, a: seq<E>, b: seq<E>)
    requires IsComparator(c)
    requires forall x, y :: x in a && y in a && c(x, y) == 0 ==> x == y
    requires multiset(a) == multiset(b) && SortedBy(c, a) && SortedBy(c, b)
    requires |a| > 0
    ensures |b| > 0 && a[0] == b[0]
  {
    assert a[0] in multiset(b);
    var j :| 0 <= j < |b| && b[j] == a[0];
    assert b[0] in multiset(a);
    var i :| 0 <= i < |a| && a[i] == b[0];
    ComparatorReflexive(c, a[0]);
    ComparatorReflexive(c, b[0]);
    assert c(a[0], b[0]) <= 0 && c(b[0], a[0]) <= 0;
    ComparatorFlip(c, a[0], b[0]);
  }

  lemma MultisetTail<E>(a: seq<E>, b: seq<E>)
    requires |a| > 0 && |b| > 0 && a[0] == b[0] && multiset(a) == multiset(b)
    ensures multiset(a[1..]) == multiset(b[1..])
  {
    assert a == [a[0]] + a[1..] && b == [b[0]] + b[1..];
    MultisetCancel(multiset{a[0]}, multiset(a[1..]), multiset(b[1..]), multiset{});
  }

  lemma SameHeadSameTail<E>(a: seq<E>, b: seq<E>)
    requires |a| > 0 && |b| > 0 && a[0] == b[0] && a[1..] == b[1..]
    ensures a == b
  {
    assert a == [a[0]] + a[1..] && b == [b[0]] + b[1..];
  }

  /** Under a comparator that ties no two different elements, a sorted
      permutation is unique: the result of `sort` does not depend on the pivot choices. */
  lemma {:induction false} SortedPermutationUnique<E(!new)>(c: (E, E) -> int, a: seq<E>, b: seq<E>)
    requires IsComparator(c)
    requires forall x, y :: x in a && y in a && c(x, y) == 0 ==> x == y
    requires multiset(a) == multiset(b) && SortedBy(c, a) && SortedBy(c, b)
    ensures a == b
  {
    if |a| == 0 {
      assert |b| == |multiset(b)| == 0;
    } else {
      SortedHeadsEqual(c, a, b);
      MultisetTail(a, b);
      assert SortedBy(c, a[1..]) && SortedBy(c, b[1..]);
      SortedPermutationUnique(c, a[1..], b[1..]);
      SameHeadSameTail(a, b);
    }
  }

  /** `addAll(in)`: appends the elements of `in` (here `other`) one by one with `add(E)`. */
  method AddAll<E>(l: ArrayList<E>, other: ArrayList<E>) returns (r: Result<ArrayList<E>>)
    requires l.Valid() && other.Valid()
    ensures l.Capacity() > 0 || other.size == 0 ==>
              r.Ok? && r.value.Valid() && r.value.Elements() == l.Elements() + other.Elements()
    ensures l.Capacity() == 0 && other.size > 0 ==> r == Err(ArrayIndexOutOfBounds)
  {
    var cur := l;
    var i := 0;
    while i < other.size
      invariant 0 <= i <= other.size
      invariant cur.Valid() && cur.Elements() == l.Elements() + other.Elements()[..i]
      invariant (cur.Capacity() == 0) == (l.Capacity() == 0)
      invariant l.Capacity() == 0 ==> i == 0
    {
      var g := Get(other, i);
      var res := Append(cur, Some(g.value));
      if res.Err? {
        return Err(res.exc);
      }
      assert other.Elements()[..i + 1] == other.Elements()[..i] + [g.value];
      cur := res.value;
      i := i + 1;
    }
    assert other.Elements()[..i] == other.Elements();
    return Ok(cur);
  }
}
