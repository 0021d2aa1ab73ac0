/** `HashTable<E>`: separate chaining over an array of buckets. A bucket is
    the sequence of its list's elements from the front; a null bucket is the
    empty sequence. The table length `m` of the Java class is always the
    length of `table`. */
module HashTables {
  import opened Outcomes

  /** Java's `2 ^ 14` is a bitwise exclusive or, so the table starts with
      12 buckets rather than a power of two. */
  const INIT_SIZE: int := (2 as bv32 ^ 14 as bv32) as int

  /** How elements are placed: `hash` is `E.hashCode()`, `compress` maps a
      hash code and a table length to a bucket index, `equals` is
      `E.equals`. */
  datatype Hashing<!E> = Hashing(hash: E -> int, compress: (int, int) -> int, equals: (E, E) -> bool)

  /** The hashing contract the table relies on: `compress` lands inside the
      table, and equal elements have equal hash codes. */
  ghost predicate ValidHashing<E(!new)>(h: Hashing<E>) {
    && (forall f, m :: m > 0 ==> 0 <= h.compress(f, m) < m)
    && (forall x, y :: h.equals(x, y) ==> h.hash(x) == h.hash(y))
  }

  lemma InitSizeValue()
    ensures INIT_SIZE == 12
  {
  }

  lemma CompressInRange<E(!new)>(h: Hashing<E>, f: int, m: int)
    requires ValidHashing(h) && m > 0
    ensures 0 <= h.compress(f, m) < m
  {
  }

  datatype HashTable<E> = HashTable(table: seq<seq<E>>, n: int)

  /** All stored elements, bucket by bucket. */
  function Flatten<E>(b: seq<seq<E>>): seq<E> {
    if |b| == 0 then [] else Flatten(b[..|b| - 1]) + b[|b| - 1]
  }

  /** Every element sits in the bucket its hash code compresses to. */
  ghost predicate Placed<E>(t: HashTable<E>, h: Hashing<E>) {
    forall i, j :: 0 <= i < |t.table| && 0 <= j < |t.table[i]| ==>
      h.compress(h.hash(t.table[i][j]), |t.table|) == i
  }

  /** The invariant of the table: `n` counts the elements, the load after
      any insertion stays within one element of three quarters, and
      every element is in its bucket. */
  ghost predicate Valid<E>(t: HashTable<E>, h: Hashing<E>) {
    && |t.table| >= INIT_SIZE
    && t.n == |Flatten(t.table)|
    && 4 * t.n <= 3 * |t.table| + 3
    && Placed(t, h)
  }

  /** `HashTable()`. */
  function New<E>(): (t: HashTable<E>)
    ensures |t.table| == INIT_SIZE && t.n == 0 && Flatten(t.table) == []
    ensures forall i :: 0 <= i < |t.table| ==> t.table[i] == []
  {
    var t := HashTable(seq(INIT_SIZE, _ => []), 0);
    assert Flatten(t.table) == [] by {
      FlattenAllEmpty(t.table);
    }
    t
  }

  /** A new table is valid under any hashing. */
  lemma NewValid<E>(h: Hashing<E>)
    ensures Valid(New<E>(), h)
  {
  }

  lemma {:induction false} FlattenAllEmpty<E>(b: seq<seq<E>>)
    requires forall i :: 0 <= i < |b| ==> b[i] == []
    ensures Flatten(b) == []
  {
    if |b| > 0 {
      FlattenAllEmpty(b[..|b| - 1]);
    }
  }

  /** An element is stored exactly when some bucket holds it. */
  lemma {:induction false} FlattenMember<E>(b: seq<seq<E>>, x: E)
    ensures x in Flatten(b) <==> exists i :: 0 <= i < |b| && x in b[i]
  {
    if |b| > 0 {
      FlattenMember(b[..|b| - 1], x);
      assert x in Flatten(b) <==> x in Flatten(b[..|b| - 1]) || x in b[|b| - 1];
      var front := b[..|b| - 1];
      if exists i :: 0 <= i < |front| && x in front[i] {
        var i :| 0 <= i < |front| && x in front[i];
        assert x in b[i];
      }
      if exists i :: 0 <= i < |b| && x in b[i] {
        var i :| 0 <= i < |b| && x in b[i];
        if i < |b| - 1 {
          assert x in front[i];
        }
      }
    }
  }

  /** Putting `v` at the front of one bucket stores exactly one more `v`. */
  lemma {:induction false} FlattenPrepend<E>(b: seq<seq<E>>, idx: int, v: E)
    requires 0 <= idx < |b|
    ensures |Flatten(b[idx := [v] + b[idx]])| == |Flatten(b)| + 1
    ensures multiset(Flatten(b[idx := [v] + b[idx]])) == multiset(Flatten(b)) + multiset{v}
  {
    var b' := b[idx := [v] + b[idx]];
    var last := |b| - 1;
    assert Flatten(b') == Flatten(b'[..last]) + b'[last];
    assert Flatten(b) == Flatten(b[..last]) + b[last];
    if idx == last {
      assert b'[..last] == b[..last];
      assert b'[last] == [v] + b[last];
      assert multiset(b'[last]) == multiset{v} + multiset(b[last]);
    } else {
      assert b'[..last] == b[..last][idx := [v] + b[idx]];
      assert b'[last] == b[last];
      FlattenPrepend(b[..last], idx, v);
    }
  }

  /** `insert(value)`: rehash first when the load factor n/m has reached
      0.75 (for table lengths below 2^31 the double comparison is exactly
      4n >= 3m), then put the value at the front of its bucket. */
  method Insert<E(!new)>(t: HashTable<E>, h: Hashing<E>, value: E) returns (r: HashTable<E>)
    requires ValidHashing(h) && Valid(t, h)
    ensures Valid(r, h) && r.n == t.n + 1
    ensures |r.table| == if 4 * t.n >= 3 * |t.table| then 2 * |t.table| else |t.table|
    ensures multiset(Flatten(r.table)) == multiset(Flatten(t.table)) + multiset{value}
    ensures var idx := h.compress(h.hash(value), |r.table|);
            0 <= idx < |r.table| && |r.table[idx]| > 0 && r.table[idx][0] == value
    decreases if 4 * t.n >= 3 * |t.table| then 3 else 0
  {
    InitSizeValue();
    var a := t;
    if 4 * a.n >= 3 * |a.table| {
      a := Rehash(a, h);
    }
    var idx := h.compress(h.hash(value), |a.table|);
    CompressInRange(h, h.hash(value), |a.table|);
    FlattenPrepend(a.table, idx, value);
    r := HashTable(a.table[idx := [value] + a.table[idx]], a.n + 1);
  }

  /** `rehash()`: a table twice as long, refilled by inserting the old
      elements bucket by bucket, each bucket from its front. No insertion
      made here reaches the load threshold of the longer table. */
  method Rehash<E(!new)>(t: HashTable<E>, h: Hashing<E>) returns (r: HashTable<E>)
    requires ValidHashing(h) && Valid(t, h)
    ensures Valid(r, h) && r.n == t.n
    ensures |r.table| == 2 * |t.table|
    ensures multiset(Flatten(r.table)) == multiset(Flatten(t.table))
    decreases 2
  {
    var old_ := t.table;
    var m := 2 * |t.table|;
    r := HashTable(seq(m, _ => []), 0);
    FlattenAllEmpty(r.table);
    var i := 0;
    while i < |old_|
      invariant 0 <= i <= |old_|
      invariant Valid(r, h) && |r.table| == m
      invariant multiset(Flatten(r.table)) == multiset(Flatten(old_[..i]))
      invariant r.n == |Flatten(old_[..i])|
    {
      FlattenPrefixBound(old_, i);
      FlattenSnoc(old_, i);
      r := InsertBucket(r, h, old_[i], |old_|);
      i := i + 1;
    }
    assert old_[..i] == old_;
  }

  /** The inner loop of `rehash()`: the elements of one old bucket inserted
      front first, into a table with room for all of them. */
  method InsertBucket<E(!new)>(t: HashTable<E>, h: Hashing<E>, bucket: seq<E>, oldLength: int)
      returns (r: HashTable<E>)
    requires ValidHashing(h) && Valid(t, h)
    requires |t.table| == 2 * oldLength && 4 * (t.n + |bucket|) <= 3 * oldLength + 3
    ensures Valid(r, h) && |r.table| == |t.table| && r.n == t.n + |bucket|
    ensures multiset(Flatten(r.table)) == multiset(Flatten(t.table)) + multiset(bucket)
    decreases 1
  {
    InitSizeValue();
    r := t;
    var j := 0;
    while j < |bucket|
      invariant 0 <= j <= |bucket|
      invariant Valid(r, h) && |r.table| == |t.table|
      invariant multiset(Flatten(r.table)) == multiset(Flatten(t.table)) + multiset(bucket[..j])
      invariant r.n == t.n + j
    {
      assert 4 * r.n < 3 * |r.table|;
      r := Insert(r, h, bucket[j]);
      assert multiset(bucket[..j + 1]) == multiset(bucket[..j]) + multiset{bucket[j]} by {
        assert bucket[..j + 1] == bucket[..j] + [bucket[j]];
      }
      j := j + 1;
    }
    assert bucket[..j] == bucket;
  }

  lemma FlattenSnoc<E>(b: seq<seq<E>>, i: int)
    requires 0 <= i < |b|
    ensures Flatten(b[..i + 1]) == Flatten(b[..i]) + b[i]
  {
    assert b[..i + 1][..i] == b[..i];
  }

  /** The elements of the first `i` buckets plus the rest of the next are
      fewer than all of them. */
  lemma FlattenPrefixBound<E>(b: seq<seq<E>>, i: int)
    requires 0 <= i < |b|
    ensures |Flatten(b[..i])| + |b[i]| <= |Flatten(b)|
  {
    FlattenPrefixLength(b, i + 1);
    assert b[..i + 1][..i] == b[..i];
  }

  lemma {:induction false} FlattenPrefixLength<E>(b: seq<seq<E>>, k: int)
    requires 0 <= k <= |b|
    ensures |Flatten(b[..k])| <= |Flatten(b)|
    decreases |b|
  {
    if k < |b| {
      assert b[..|b| - 1][..k] == b[..k];
      FlattenPrefixLength(b[..|b| - 1], k);
    } else {
      assert b[..k] == b;
    }
  }

  /** Position `k` of `bucket` holds the first element equal to `value`. */
  ghost predicate FirstMatchAt<E>(bucket: seq<E>, value: E, equals: (E, E) -> bool, k: int)
    requires 0 <= k < |bucket|
  {
    equals(bucket[k], value) && forall j :: 0 <= j < k ==> !equals(bucket[j], value)
  }

  /** The scan of one bucket: the first element equal to `value`. */
  function FindIn<E>(bucket: seq<E>, value: E, equals: (E, E) -> bool): (r: Option<E>)
    ensures r.Some? ==> r.value in bucket && equals(r.value, value)
    ensures r.None? <==> forall x :: x in bucket ==> !equals(x, value)
    ensures |bucket| > 0 && equals(bucket[0], value) ==> r == Some(bucket[0])
    ensures r.Some? ==> exists k :: 0 <= k < |bucket| && bucket[k] == r.value && FirstMatchAt(bucket, value, equals, k)
  {
    if |bucket| == 0 then None
    else if equals(bucket[0], value) then Some(bucket[0])
    else FindIn(bucket[1..], value, equals)
  }

  /** `lookUp(value)`: the stored element equal to `value`, or null. */
  function LookUp<E(!new)>(t: HashTable<E>, h: Hashing<E>, value: E): (r: Option<E>)
    requires ValidHashing(h) && Valid(t, h)
    ensures r.Some? ==> r.value in Flatten(t.table) && h.equals(r.value, value)
    ensures r.None? <==> forall x :: x in Flatten(t.table) ==> !h.equals(x, value)
    ensures 0 <= h.compress(h.hash(value), |t.table|) < |t.table|
    ensures r == FindIn(t.table[h.compress(h.hash(value), |t.table|)], value, h.equals)
  {
    InitSizeValue();
    CompressInRange(h, h.hash(value), |t.table|);
    var idx := h.compress(h.hash(value), |t.table|);
    var r := FindIn(t.table[idx], value, h.equals);
    assert r.Some? ==> r.value in Flatten(t.table) by {
      if r.Some? {
        FlattenMember(t.table, r.value);
      }
    }
    assert r.None? ==> forall x :: x in Flatten(t.table) ==> !h.equals(x, value) by {
      if r.None? {
        forall x | x in Flatten(t.table)
          ensures !h.equals(x, value)
        {
          FlattenMember(t.table, x);
          var i :| 0 <= i < |t.table| && x in t.table[i];
          var j :| 0 <= j < |t.table[i]| && t.table[i][j] == x;
          assert h.equals(x, value) ==> i == idx;
        }
      }
    }
    r
  }

  /** `size()`. */
  function Size<E>(t: HashTable<E>, h: Hashing<E>): (n: int)
    requires Valid(t, h)
    ensures n == |Flatten(t.table)|
  {
    t.n
  }

  /** `getHashTableLength()`: never below the initial length, and long
      enough that the load stays within one element of three quarters,
      which is what the rehash in `insert` maintains. */
  function Length<E>(t: HashTable<E>, h: Hashing<E>): (m: int)
    requires Valid(t, h)
    ensures m == |t.table|
    ensures m >= INIT_SIZE && 4 * |Flatten(t.table)| <= 3 * m + 3
  {
    |t.table|
  }

  /** Looking up a value just inserted returns that very value, since it is
      at the front of its bucket. */
  lemma LookUpFindsFront<E(!new)>(t: HashTable<E>, h: Hashing<E>, value: E)
    requires ValidHashing(h) && Valid(t, h)
    requires h.equals(value, value)
    requires var idx := h.compress(h.hash(value), |t.table|);
             0 <= idx < |t.table| && |t.table[idx]| > 0 && t.table[idx][0] == value
    ensures LookUp(t, h, value) == Some(value)
  {
  }
}
