/** `SecurityLogManager`: the operational profile of a time window and the
    activity report of one user, over the list of log entries read in. */
module Manager {
  import opened Outcomes
  import opened JavaStrings
  import opened Orders
  import TimeStamps
  import opened LogEntries
  import opened Comparators
  import AL = ArrayLists
  import HT = HashTables

  // ---------------------------------------------------------------------
  // The tally of a time window, as a reference definition

  predicate InWindow(e: LogEntry, start: int, end: int) {
    start <= e.timeStamp.val <= end
  }

  /** How many of the first `n` entries lie in the window and have key `k`. */
  function CountKey(ents: seq<LogEntry>, n: int, start: int, end: int, k: (string, string)): (c: nat)
    requires 0 <= n <= |ents|
    ensures c <= n
  {
    if n == 0 then 0
    else CountKey(ents, n - 1, start, end, k) + (if InWindow(ents[n - 1], start, end) && Key(ents[n - 1]) == k then 1 else 0)
  }

  /** How many of the first `n` entries lie in the window. */
  function CountWindow(ents: seq<LogEntry>, n: int, start: int, end: int): (c: nat)
    requires 0 <= n <= |ents|
    ensures c <= n
  {
    if n == 0 then 0
    else CountWindow(ents, n - 1, start, end) + (if InWindow(ents[n - 1], start, end) then 1 else 0)
  }

  /** Entry `j` is in the window and no earlier entry in the window has its key. */
  ghost predicate FirstSeen(ents: seq<LogEntry>, start: int, end: int, j: int)
    requires 0 <= j < |ents|
  {
    && InWindow(ents[j], start, end)
    && forall q :: 0 <= q < j && InWindow(ents[q], start, end) ==> Key(ents[q]) != Key(ents[j])
  }

  /** The first index in `out` whose entry has key `k`. */
  function FindKey(ents: seq<LogEntry>, out: seq<int>, k: (string, string)): (r: Option<int>)
    ensures r.Some? ==> r.value in out && 0 <= r.value < |ents| && Key(ents[r.value]) == k
    ensures r.None? ==> forall x :: x in out && 0 <= x < |ents| ==> Key(ents[x]) != k
  {
    if |out| == 0 then None
    else if 0 <= out[0] < |ents| && Key(ents[out[0]]) == k then Some(out[0])
    else FindKey(ents, out[1..], k)
  }

  /** The state of `generateOperationalProfile`'s first loop: the entries
      (whose frequencies it increments), the indices placed in `out`, and
      the window total. */
  datatype Tally = Tally(entries: seq<LogEntry>, out: seq<int>, total: int)

  /** The first loop over the first `i` entries, with the hash table lookup
      replaced by a search of `out` for an entry with the same key (keys
      never change, so the original entries are searched). */
  function TallyUpTo(ents0: seq<LogEntry>, start: int, end: int, i: int): (t: Tally)
    requires 0 <= i <= |ents0|
    ensures |t.entries| == |ents0|
    ensures forall x :: x in t.out ==> 0 <= x < i
  {
    if i == 0 then Tally(ents0, [], 0)
    else
      var p := TallyUpTo(ents0, start, end, i - 1);
      var e := ents0[i - 1];
      if !InWindow(e, start, end) then p
      else match FindKey(ents0, p.out, Key(e))
        case None => Tally(p.entries, p.out + [i - 1], p.total + 1)
        case Some(x) => Tally(p.entries[x := IncrementFrequency(p.entries[x])], p.out, p.total + 1)
  }

  /** The sum of the frequencies of the entries at the indices `o`. */
  function SumFreq(ents: seq<LogEntry>, o: seq<int>): int {
    if |o| == 0 then 0
    else SumFreq(ents, o[..|o| - 1]) + (if 0 <= o[|o| - 1] < |ents| then ents[o[|o| - 1]].freq else 0)
  }

  ghost predicate Increasing(o: seq<int>) {
    forall p, q :: 0 <= p < q < |o| ==> o[p] < o[q]
  }

  // What the first loop has established after `i` entries, piece by piece.

  /** Only frequencies change. */
  ghost predicate SameButFreq(ents0: seq<LogEntry>, t: Tally) {
    && |t.entries| == |ents0|
    && forall j :: 0 <= j < |ents0| ==> t.entries[j].(freq := ents0[j].freq) == ents0[j]
  }

  /** `out` lists indices already visited, in visiting order. */
  ghost predicate OutShape(t: Tally, i: int) {
    Increasing(t.out) && forall x :: x in t.out ==> 0 <= x < i
  }

  /** `out` holds exactly the first-seen entries among those visited. */
  ghost predicate OutFirstSeen(ents0: seq<LogEntry>, start: int, end: int, i: int, t: Tally)
    requires 0 <= i <= |ents0|
  {
    forall j :: 0 <= j < i ==> (j in t.out <==> FirstSeen(ents0, start, end, j))
  }

  /** Every key met in the window so far has a representative in `out`. */
  ghost predicate KeysCovered(ents0: seq<LogEntry>, start: int, end: int, i: int, t: Tally)
    requires 0 <= i <= |ents0|
  {
    forall q :: 0 <= q < i && InWindow(ents0[q], start, end) ==> FindKey(ents0, t.out, Key(ents0[q])).Some?
  }

  /** A representative has counted every other window entry with its key. */
  ghost predicate FreqCounts(ents0: seq<LogEntry>, start: int, end: int, i: int, t: Tally)
    requires 0 <= i <= |ents0| && |t.entries| == |ents0|
  {
    forall j :: 0 <= j < |ents0| ==>
      t.entries[j].freq == ents0[j].freq + (if j in t.out then CountKey(ents0, i, start, end, Key(ents0[j])) - 1 else 0)
  }

  ghost predicate TallyInvariant(ents0: seq<LogEntry>, start: int, end: int, i: int, t: Tally)
    requires 0 <= i <= |ents0|
  {
    && SameButFreq(ents0, t)
    && OutShape(t, i)
    && OutFirstSeen(ents0, start, end, i, t)
    && KeysCovered(ents0, start, end, i, t)
    && FreqCounts(ents0, start, end, i, t)
    && t.total == CountWindow(ents0, i, start, end)
    && SumFreq(t.entries, t.out) + |t.out| == SumFreq(ents0, t.out) + t.total
  }

  /** Two first-seen entries with the same key are the same entry. */
  lemma FirstSeenKeyUnique(ents: seq<LogEntry>, start: int, end: int, j: int, x: int)
    requires 0 <= j < |ents| && 0 <= x < |ents|
    requires FirstSeen(ents, start, end, j) && FirstSeen(ents, start, end, x)
    requires Key(ents[j]) == Key(ents[x])
    ensures j == x
  {
  }

  /** A key no window entry before `n` carries has count 0 there. */
  lemma {:induction false} CountKeyZero(ents: seq<LogEntry>, n: int, start: int, end: int, k: (string, string))
    requires 0 <= n <= |ents|
    requires forall q :: 0 <= q < n && InWindow(ents[q], start, end) ==> Key(ents[q]) != k
    ensures CountKey(ents, n, start, end, k) == 0
  {
    if n > 0 {
      CountKeyZero(ents, n - 1, start, end, k);
    }
  }

  /** Changing the frequency of an entry `o` does not mention leaves the sum alone. */
  lemma {:induction false} SumFreqUpdateAbsent(ents: seq<LogEntry>, o: seq<int>, x: int, f: int)
    requires 0 <= x < |ents| && x !in o
    ensures SumFreq(ents[x := ents[x].(freq := f)], o) == SumFreq(ents, o)
  {
    if |o| > 0 {
      SumFreqUpdateAbsent(ents, o[..|o| - 1], x, f);
    }
  }

  /** Changing the frequency of an entry `o` mentions once moves the sum by
      the same amount. */
  lemma {:induction false} SumFreqUpdatePresent(ents: seq<LogEntry>, o: seq<int>, x: int, f: int)
    requires 0 <= x < |ents| && x in o && Increasing(o)
    ensures SumFreq(ents[x := ents[x].(freq := f)], o) == SumFreq(ents, o) + f - ents[x].freq
  {
    var front := o[..|o| - 1];
    if o[|o| - 1] == x {
      assert x !in front;
      SumFreqUpdateAbsent(ents, front, x, f);
    } else {
      assert x in front;
      SumFreqUpdatePresent(ents, front, x, f);
    }
  }

  lemma IncreasingAppend(o: seq<int>, x: int)
    requires Increasing(o) && forall y :: y in o ==> y < x
    ensures Increasing(o + [x])
  {
    forall p, q | 0 <= p < q < |o| + 1
      ensures (o + [x])[p] < (o + [x])[q]
    {
      if q == |o| {
        assert o[p] in o;
      }
    }
  }

  lemma SumFreqAppend(ents: seq<LogEntry>, o: seq<int>, x: int)
    requires 0 <= x < |ents|
    ensures SumFreq(ents, o + [x]) == SumFreq(ents, o) + ents[x].freq
  {
    assert (o + [x])[..|o|] == o;
  }

  /** Entry `i` is the first of its key exactly when the search of `out` fails. */
  lemma StepOutFirstSeen(ents0: seq<LogEntry>, start: int, end: int, i: int)
    requires 0 <= i < |ents0|
    requires var p := TallyUpTo(ents0, start, end, i);
             OutShape(p, i) && OutFirstSeen(ents0, start, end, i, p) && KeysCovered(ents0, start, end, i, p)
    ensures var p := TallyUpTo(ents0, start, end, i);
            FirstSeen(ents0, start, end, i) <==>
              InWindow(ents0[i], start, end) && FindKey(ents0, p.out, Key(ents0[i])).None?
    ensures var t := TallyUpTo(ents0, start, end, i + 1);
            OutShape(t, i + 1) && OutFirstSeen(ents0, start, end, i + 1, t)
  {
    var p := TallyUpTo(ents0, start, end, i);
    var k := Key(ents0[i]);
    if InWindow(ents0[i], start, end) {
      match FindKey(ents0, p.out, k)
      case None =>
        forall q | 0 <= q < i && InWindow(ents0[q], start, end)
          ensures Key(ents0[q]) != k
        {
          var x := FindKey(ents0, p.out, Key(ents0[q])).value;
        }
        assert FirstSeen(ents0, start, end, i);
        IncreasingAppend(p.out, i);
      case Some(x) =>
        assert FirstSeen(ents0, start, end, x);
        assert !FirstSeen(ents0, start, end, i);
    }
  }

  lemma StepKeysCovered(ents0: seq<LogEntry>, start: int, end: int, i: int)
    requires 0 <= i < |ents0|
    requires KeysCovered(ents0, start, end, i, TallyUpTo(ents0, start, end, i))
    ensures KeysCovered(ents0, start, end, i + 1, TallyUpTo(ents0, start, end, i + 1))
  {
    var p := TallyUpTo(ents0, start, end, i);
    var t := TallyUpTo(ents0, start, end, i + 1);
    forall q | 0 <= q < i + 1 && InWindow(ents0[q], start, end)
      ensures FindKey(ents0, t.out, Key(ents0[q])).Some?
    {
      if q < i {
        var x := FindKey(ents0, p.out, Key(ents0[q])).value;
        assert x in t.out;
      } else {
        match FindKey(ents0, p.out, Key(ents0[i]))
        case None =>
          assert i in t.out;
        case Some(x) =>
          assert x in t.out;
      }
    }
  }

  lemma StepSameButFreq(ents0: seq<LogEntry>, start: int, end: int, i: int)
    requires 0 <= i < |ents0|
    requires SameButFreq(ents0, TallyUpTo(ents0, start, end, i))
    ensures SameButFreq(ents0, TallyUpTo(ents0, start, end, i + 1))
  {
  }

  lemma CountKeyStep(ents0: seq<LogEntry>, start: int, end: int, i: int, k: (string, string))
    requires 0 <= i < |ents0|
    ensures CountKey(ents0, i + 1, start, end, k) ==
            CountKey(ents0, i, start, end, k) + (if InWindow(ents0[i], start, end) && Key(ents0[i]) == k then 1 else 0)
  {
  }

  lemma StepFreqCountsNew(ents0: seq<LogEntry>, start: int, end: int, i: int)
    requires 0 <= i < |ents0| && InWindow(ents0[i], start, end)
    requires var p := TallyUpTo(ents0, start, end, i);
             && FindKey(ents0, p.out, Key(ents0[i])).None?
             && OutShape(p, i) && FirstSeen(ents0, start, end, i) && FreqCounts(ents0, start, end, i, p)
    ensures FreqCounts(ents0, start, end, i + 1, TallyUpTo(ents0, start, end, i + 1))
  {
    var p := TallyUpTo(ents0, start, end, i);
    var t := TallyUpTo(ents0, start, end, i + 1);
    var k := Key(ents0[i]);
    assert t.entries == p.entries && t.out == p.out + [i];
    CountKeyZero(ents0, i, start, end, k);
    forall j | 0 <= j < |ents0|
      ensures t.entries[j].freq == ents0[j].freq +
                (if j in t.out then CountKey(ents0, i + 1, start, end, Key(ents0[j])) - 1 else 0)
    {
      CountKeyStep(ents0, start, end, i, Key(ents0[j]));
      assert j in t.out <==> j in p.out || j == i;
      if j in p.out {
        assert Key(ents0[j]) != k;
      } else if j == i {
        assert i !in p.out;
      }
    }
  }

  lemma StepFreqCountsSeen(ents0: seq<LogEntry>, start: int, end: int, i: int)
    requires 0 <= i < |ents0| && InWindow(ents0[i], start, end)
    requires var p := TallyUpTo(ents0, start, end, i);
             && FindKey(ents0, p.out, Key(ents0[i])).Some?
             && OutFirstSeen(ents0, start, end, i, p) && OutShape(p, i) && FreqCounts(ents0, start, end, i, p)
    ensures FreqCounts(ents0, start, end, i + 1, TallyUpTo(ents0, start, end, i + 1))
  {
    var p := TallyUpTo(ents0, start, end, i);
    var t := TallyUpTo(ents0, start, end, i + 1);
    var k := Key(ents0[i]);
    var x := FindKey(ents0, p.out, k).value;
    assert t.entries == p.entries[x := IncrementFrequency(p.entries[x])] && t.out == p.out;
    assert FirstSeen(ents0, start, end, x);
    forall j | 0 <= j < |ents0|
      ensures t.entries[j].freq == ents0[j].freq +
                (if j in t.out then CountKey(ents0, i + 1, start, end, Key(ents0[j])) - 1 else 0)
    {
      CountKeyStep(ents0, start, end, i, Key(ents0[j]));
      if j in p.out && Key(ents0[j]) == k {
        assert FirstSeen(ents0, start, end, j);
        FirstSeenKeyUnique(ents0, start, end, j, x);
      }
    }
  }

  lemma StepFreqCountsOutside(ents0: seq<LogEntry>, start: int, end: int, i: int)
    requires 0 <= i < |ents0| && !InWindow(ents0[i], start, end)
    requires FreqCounts(ents0, start, end, i, TallyUpTo(ents0, start, end, i))
    ensures FreqCounts(ents0, start, end, i + 1, TallyUpTo(ents0, start, end, i + 1))
  {
    forall j | 0 <= j < |ents0|
      ensures CountKey(ents0, i + 1, start, end, Key(ents0[j])) == CountKey(ents0, i, start, end, Key(ents0[j]))
    {
      CountKeyStep(ents0, start, end, i, Key(ents0[j]));
    }
  }

  lemma StepFreqCounts(ents0: seq<LogEntry>, start: int, end: int, i: int)
    requires 0 <= i < |ents0|
    requires var p := TallyUpTo(ents0, start, end, i);
             && OutShape(p, i) && OutFirstSeen(ents0, start, end, i, p)
             && KeysCovered(ents0, start, end, i, p) && FreqCounts(ents0, start, end, i, p)
    ensures FreqCounts(ents0, start, end, i + 1, TallyUpTo(ents0, start, end, i + 1))
  {
    var p := TallyUpTo(ents0, start, end, i);
    StepOutFirstSeen(ents0, start, end, i);
    if !InWindow(ents0[i], start, end) {
      StepFreqCountsOutside(ents0, start, end, i);
    } else if FindKey(ents0, p.out, Key(ents0[i])).None? {
      StepFreqCountsNew(ents0, start, end, i);
    } else {
      StepFreqCountsSeen(ents0, start, end, i);
    }
  }

  lemma StepTotal(ents0: seq<LogEntry>, start: int, end: int, i: int)
    requires 0 <= i < |ents0|
    requires TallyUpTo(ents0, start, end, i).total == CountWindow(ents0, i, start, end)
    ensures TallyUpTo(ents0, start, end, i + 1).total == CountWindow(ents0, i + 1, start, end)
  {
  }

  lemma StepSumFreqs(ents0: seq<LogEntry>, start: int, end: int, i: int)
    requires 0 <= i < |ents0|
    requires var p := TallyUpTo(ents0, start, end, i);
             && OutShape(p, i) && FreqCounts(ents0, start, end, i, p)
             && SumFreq(p.entries, p.out) + |p.out| == SumFreq(ents0, p.out) + p.total
    ensures var t := TallyUpTo(ents0, start, end, i + 1);
            SumFreq(t.entries, t.out) + |t.out| == SumFreq(ents0, t.out) + t.total
  {
    var p := TallyUpTo(ents0, start, end, i);
    if InWindow(ents0[i], start, end) {
      match FindKey(ents0, p.out, Key(ents0[i]))
      case None =>
        assert i !in p.out;
        SumFreqAppend(p.entries, p.out, i);
        SumFreqAppend(ents0, p.out, i);
      case Some(x) =>
        SumFreqUpdatePresent(p.entries, p.out, x, p.entries[x].freq + 1);
    }
  }

  /** The shape of `out` and what it holds, after any number of entries. */
  lemma {:induction false} OutFacts(ents0: seq<LogEntry>, start: int, end: int, n: int)
    requires 0 <= n <= |ents0|
    ensures var t := TallyUpTo(ents0, start, end, n);
            OutShape(t, n) && OutFirstSeen(ents0, start, end, n, t) && KeysCovered(ents0, start, end, n, t)
  {
    if n > 0 {
      OutFacts(ents0, start, end, n - 1);
      StepOutFirstSeen(ents0, start, end, n - 1);
      StepKeysCovered(ents0, start, end, n - 1);
    }
  }

  lemma OutShapeFacts(ents0: seq<LogEntry>, start: int, end: int, n: int)
    requires 0 <= n <= |ents0|
    ensures OutShape(TallyUpTo(ents0, start, end, n), n)
  {
    OutFacts(ents0, start, end, n);
  }

  lemma {:induction false} SameButFreqFacts(ents0: seq<LogEntry>, start: int, end: int, n: int)
    requires 0 <= n <= |ents0|
    ensures SameButFreq(ents0, TallyUpTo(ents0, start, end, n))
  {
    if n > 0 {
      SameButFreqFacts(ents0, start, end, n - 1);
      StepSameButFreq(ents0, start, end, n - 1);
    }
  }

  lemma {:induction false} FreqCountsFacts(ents0: seq<LogEntry>, start: int, end: int, n: int)
    requires 0 <= n <= |ents0|
    ensures FreqCounts(ents0, start, end, n, TallyUpTo(ents0, start, end, n))
  {
    if n > 0 {
      FreqCountsFacts(ents0, start, end, n - 1);
      OutFacts(ents0, start, end, n - 1);
      StepFreqCounts(ents0, start, end, n - 1);
    }
  }

  lemma {:induction false} TotalFacts(ents0: seq<LogEntry>, start: int, end: int, n: int)
    requires 0 <= n <= |ents0|
    ensures TallyUpTo(ents0, start, end, n).total == CountWindow(ents0, n, start, end)
  {
    if n > 0 {
      TotalFacts(ents0, start, end, n - 1);
      StepTotal(ents0, start, end, n - 1);
    }
  }

  lemma {:induction false} SumFreqFacts(ents0: seq<LogEntry>, start: int, end: int, n: int)
    requires 0 <= n <= |ents0|
    ensures var t := TallyUpTo(ents0, start, end, n);
            SumFreq(t.entries, t.out) + |t.out| == SumFreq(ents0, t.out) + t.total
  {
    if n > 0 {
      SumFreqFacts(ents0, start, end, n - 1);
      OutShapeFacts(ents0, start, end, n - 1);
      FreqCountsFacts(ents0, start, end, n - 1);
      StepSumFreqs(ents0, start, end, n - 1);
    }
  }

  /** The reference tally keeps its invariant all the way. */
  lemma TallyFacts(ents0: seq<LogEntry>, start: int, end: int, n: int)
    requires 0 <= n <= |ents0|
    ensures TallyInvariant(ents0, start, end, n, TallyUpTo(ents0, start, end, n))
  {
    OutFacts(ents0, start, end, n);
    SameButFreqFacts(ents0, start, end, n);
    FreqCountsFacts(ents0, start, end, n);
    TotalFacts(ents0, start, end, n);
    SumFreqFacts(ents0, start, end, n);
  }

  // ---------------------------------------------------------------------
  // The first loop, over the hash table and the array list

  /** The key of entry `j`, or an empty key outside the sequence. */
  function KeyAt(ents0: seq<LogEntry>, j: int): (string, string) {
    if 0 <= j < |ents0| then Key(ents0[j]) else ("", "")
  }

  /** `compressHash` lands inside a table of any positive length. */
  ghost predicate CompressValid(compress: (int, int) -> int) {
    forall f, m :: m > 0 ==> 0 <= compress(f, m) < m
  }

  /** The table stores entries by index: `hashCode` and `equals` of the
      entry an index stands for, both of which read only its key. */
  function EntryHashing(ents0: seq<LogEntry>, compress: (int, int) -> int): HT.Hashing<int> {
    HT.Hashing((j: int) => KeyHash(KeyAt(ents0, j)), compress,
               (a: int, b: int) => KeyAt(ents0, a) == KeyAt(ents0, b))
  }

  lemma EntryHashingValid(ents0: seq<LogEntry>, compress: (int, int) -> int)
    requires CompressValid(compress)
    ensures HT.ValidHashing(EntryHashing(ents0, compress))
  {
  }

  /** Any search of `out` that finds an entry with the key of entry `i`
      whenever there is one finds the one `FindKey` finds, since no two
      entries in `out` share a key. So the hash table lookup of the loop
      and the linear search of the reference tally agree. */
  lemma SearchAgreesWithFindKey(ents0: seq<LogEntry>, start: int, end: int, i: int, found: Option<int>)
    requires 0 <= i < |ents0|
    requires var p := TallyUpTo(ents0, start, end, i);
             && OutShape(p, i) && OutFirstSeen(ents0, start, end, i, p)
             && (found.Some? ==> found.value in p.out && Key(ents0[found.value]) == Key(ents0[i]))
             && (found.None? ==> forall x :: x in p.out ==> Key(ents0[x]) != Key(ents0[i]))
    ensures found == FindKey(ents0, TallyUpTo(ents0, start, end, i).out, Key(ents0[i]))
  {
    var p := TallyUpTo(ents0, start, end, i);
    var f := FindKey(ents0, p.out, Key(ents0[i]));
    if found.Some? {
      var x := found.value;
      assert f.Some?;
      assert FirstSeen(ents0, start, end, x) && FirstSeen(ents0, start, end, f.value);
      FirstSeenKeyUnique(ents0, start, end, x, f.value);
    }
  }

  /** How the loop's state stands for the reference tally after `i` entries. */
  ghost predicate LoopState(ents0: seq<LogEntry>, start: int, end: int, compress: (int, int) -> int, i: int,
                            ht: HT.HashTable<int>, ents: seq<LogEntry>, out: AL.ArrayList<int>, total: int)
    requires 0 <= i <= |ents0|
  {
    && out.Valid() && out.Capacity() > 0
    && Tally(ents, out.Elements(), total) == TallyUpTo(ents0, start, end, i)
    && HT.Valid(ht, EntryHashing(ents0, compress))
    && multiset(HT.Flatten(ht.table)) == multiset(out.Elements())
  }

  /** The table lookup of entry `i` finds what the reference search of
      `out` finds. */
  lemma LookUpIsFindKey(ents0: seq<LogEntry>, start: int, end: int, compress: (int, int) -> int, i: int,
                        ht: HT.HashTable<int>, out: seq<int>)
    requires CompressValid(compress) && 0 <= i < |ents0|
    requires out == TallyUpTo(ents0, start, end, i).out
    requires HT.Valid(ht, EntryHashing(ents0, compress))
    requires multiset(HT.Flatten(ht.table)) == multiset(out)
    ensures HT.ValidHashing(EntryHashing(ents0, compress))
    ensures HT.LookUp(ht, EntryHashing(ents0, compress), i) == FindKey(ents0, out, Key(ents0[i]))
  {
    EntryHashingValid(ents0, compress);
    OutFacts(ents0, start, end, i);
    forall x
      ensures x in HT.Flatten(ht.table) <==> x in out
    {
      assert x in HT.Flatten(ht.table) <==> x in multiset(HT.Flatten(ht.table));
    }
    SearchAgreesWithFindKey(ents0, start, end, i, HT.LookUp(ht, EntryHashing(ents0, compress), i));
  }

  /** The new-key branch of the first loop of `generateOperationalProfile`:
      a window entry whose key is new goes into the table and at the end of
      `out`. */
  method TallyInsert(ents0: seq<LogEntry>, start: int, end: int, compress: (int, int) -> int, i: int,
                     ht: HT.HashTable<int>, ents: seq<LogEntry>, out: AL.ArrayList<int>, total: int)
      returns (ht': HT.HashTable<int>, out': AL.ArrayList<int>)
    requires CompressValid(compress) && 0 <= i < |ents0| && InWindow(ents0[i], start, end)
    requires LoopState(ents0, start, end, compress, i, ht, ents, out, total)
    requires FindKey(ents0, out.Elements(), Key(ents0[i])).None?
    ensures LoopState(ents0, start, end, compress, i + 1, ht', ents, out', total + 1)
  {
    EntryHashingValid(ents0, compress);
    ht' := HT.Insert(ht, EntryHashing(ents0, compress), i);
    var added := AL.Append(out, Some(i));
    out' := added.value;
  }

  /** One pass of the body of the first loop of `generateOperationalProfile`:
      a window entry whose key the table lacks is inserted and listed,
      otherwise the stored entry with its key has its frequency incremented. */
  method TallyEntry(ents0: seq<LogEntry>, start: int, end: int, compress: (int, int) -> int, i: int,
                    ht: HT.HashTable<int>, ents: seq<LogEntry>, out: AL.ArrayList<int>, total: int)
      returns (ht': HT.HashTable<int>, ents': seq<LogEntry>, out': AL.ArrayList<int>, total': int)
    requires CompressValid(compress) && 0 <= i < |ents0|
    requires LoopState(ents0, start, end, compress, i, ht, ents, out, total)
    ensures LoopState(ents0, start, end, compress, i + 1, ht', ents', out', total')
  {
    SameButFreqFacts(ents0, start, end, i);
    ht', ents', out', total' := ht, ents, out, total;
    var curr := ents[i];
    assert InWindow(curr, start, end) == InWindow(ents0[i], start, end);
    if InWindow(curr, start, end) {
      LookUpIsFindKey(ents0, start, end, compress, i, ht, out.Elements());
      var lookedUp := HT.LookUp(ht, EntryHashing(ents0, compress), i);
      if lookedUp.None? {
        ht', out' := TallyInsert(ents0, start, end, compress, i, ht, ents, out, total);
      } else {
        var x := lookedUp.value;
        ents' := ents[x := IncrementFrequency(ents[x])];
      }
      total' := total + 1;
    }
  }

  /** The first loop of `generateOperationalProfile`: the window total, the
      entries with their frequencies incremented, and the list `out` of
      first-seen entries, built with the hash table. */
  method TallyWindow(ents0: seq<LogEntry>, start: int, end: int, compress: (int, int) -> int)
      returns (ents: seq<LogEntry>, out: AL.ArrayList<int>, total: int)
    requires CompressValid(compress)
    ensures out.Valid()
    ensures Tally(ents, out.Elements(), total) == TallyUpTo(ents0, start, end, |ents0|)
  {
    HT.NewValid(EntryHashing(ents0, compress));
    var ht: HT.HashTable<int> := HT.New();
    out := AL.Empty();
    ents := ents0;
    total := 0;
    var i := 0;
    while i < |ents0|
      invariant 0 <= i <= |ents0|
      invariant LoopState(ents0, start, end, compress, i, ht, ents, out, total)
    {
      ht, ents, out, total := TallyEntry(ents0, start, end, compress, i, ht, ents, out, total);
      i := i + 1;
    }
  }

  // ---------------------------------------------------------------------
  // Sorting and rendering the profile

  /** Entry `j`, or a blank entry outside the sequence. */
  function EntryAt(ents: seq<LogEntry>, j: int): LogEntry {
    if 0 <= j < |ents| then ents[j] else LogEntry("", TimeStamps.TimeStamp("", 0), "", "", 0, 0)
  }

  /** `ARComparator` on the entries two indices stand for. */
  function ByIndex(ents: seq<LogEntry>): (int, int) -> int {
    (a: int, b: int) => ARCompare(EntryAt(ents, a), EntryAt(ents, b))
  }

  lemma ByIndexIsComparator(ents: seq<LogEntry>)
    ensures IsComparator(ByIndex(ents))
  {
    ARCompareIsComparator();
    var c := ByIndex(ents);
    forall a, b, d | AtMost(c, a, b) && AtMost(c, b, d)
      ensures AtMost(c, a, d)
    {
      ComparatorTransitive(ARCompare, EntryAt(ents, a), EntryAt(ents, b), EntryAt(ents, d));
    }
  }

  /** What `out` holds after `out.sort(new ARComparator())`: the first-seen
      entries of the tally, rearranged into ARComparator order. */
  ghost predicate IsProfileOrder(t: Tally, order: seq<int>) {
    multiset(order) == multiset(t.out) && SortedBy(ByIndex(t.entries), order)
  }

  /** No two entries of `out` share a key. */
  lemma OutKeysDistinct(ents0: seq<LogEntry>, start: int, end: int, x: int, y: int)
    requires var t := TallyUpTo(ents0, start, end, |ents0|); x in t.out && y in t.out
    requires 0 <= x < |ents0| && 0 <= y < |ents0| && Key(ents0[x]) == Key(ents0[y])
    ensures x == y
  {
    OutFacts(ents0, start, end, |ents0|);
    FirstSeenKeyUnique(ents0, start, end, x, y);
  }

  /** The order of the profile does not depend on how the sort got there:
      ARComparator ties only entries with the same action and resource,
      and `out` holds one entry per key. */
  lemma ProfileOrderUnique(ents0: seq<LogEntry>, start: int, end: int, o1: seq<int>, o2: seq<int>)
    requires var t := TallyUpTo(ents0, start, end, |ents0|); IsProfileOrder(t, o1) && IsProfileOrder(t, o2)
    ensures o1 == o2
  {
    var t := TallyUpTo(ents0, start, end, |ents0|);
    SameButFreqFacts(ents0, start, end, |ents0|);
    ByIndexIsComparator(t.entries);
    forall x, y | x in o1 && y in o1 && ByIndex(t.entries)(x, y) == 0
      ensures x == y
    {
      assert x in multiset(o1) && y in multiset(o1);
      assert x in t.out && y in t.out;
      assert t.entries[x].(freq := ents0[x].freq) == ents0[x];
      assert t.entries[y].(freq := ents0[y].freq) == ents0[y];
      OutKeysDistinct(ents0, start, end, x, y);
    }
    AL.SortedPermutationUnique(ByIndex(t.entries), o1, o2);
  }

  /** One line of the profile: action, resource, frequency and the
      percentage `percent(frequency, total)` renders with "%.1f". */
  function ProfileLine(e: LogEntry, total: int, percent: (int, int) -> string): string {
    "   " + e.action + " " + e.resource + ": frequency: " + IntToString(e.freq)
      + ", percentage: " + percent(e.freq, total) + "%\n"
  }

  /** The lines of the entries `order` lists, in that order. */
  function ProfileLines(ents: seq<LogEntry>, order: seq<int>, total: int, percent: (int, int) -> string): string {
    if |order| == 0 then ""
    else ProfileLines(ents, order[..|order| - 1], total, percent)
         + ProfileLine(EntryAt(ents, order[|order| - 1]), total, percent)
  }

  const PROFILE_HEADER: string := "OperationalProfile[\n"

  const NO_ACTIVITY: string := "OperationalProfile[\n   No activity was recorded.\n]"

  /** The profile of a tally whose `out` is listed in `order`. */
  function ProfileText(t: Tally, order: seq<int>, percent: (int, int) -> string): string {
    PROFILE_HEADER + ProfileLines(t.entries, order, t.total, percent) + "]"
  }

  lemma ProfileLinesSnoc(ents: seq<LogEntry>, order: seq<int>, i: int, total: int, percent: (int, int) -> string)
    requires 0 <= i < |order|
    ensures ProfileLines(ents, order[..i + 1], total, percent)
         == ProfileLines(ents, order[..i], total, percent) + ProfileLine(EntryAt(ents, order[i]), total, percent)
  {
    assert order[..i + 1][..i] == order[..i];
  }

  lemma AppendAssociative(a: string, b: string, c: string)
    ensures (a + b) + c == a + (b + c)
  {
  }

  /** The StringBuilder loop over `out` in `generateOperationalProfile`. */
  method RenderProfile(ents: seq<LogEntry>, out: AL.ArrayList<int>, total: int, percent: (int, int) -> string)
      returns (text: string)
    requires out.Valid()
    ensures text == ProfileText(Tally(ents, out.Elements(), total), out.Elements(), percent)
  {
    var sb := PROFILE_HEADER;
    var i := 0;
    while i < AL.Size(out)
      invariant 0 <= i <= out.size
      invariant sb == PROFILE_HEADER + ProfileLines(ents, out.Elements()[..i], total, percent)
    {
      var curr := AL.Get(out, i).value;
      var line := ProfileLine(EntryAt(ents, curr), total, percent);
      ProfileLinesSnoc(ents, out.Elements(), i, total, percent);
      AppendAssociative(PROFILE_HEADER, ProfileLines(ents, out.Elements()[..i], total, percent), line);
      sb := sb + line;
      i := i + 1;
    }
    assert out.Elements()[..i] == out.Elements();
    text := sb + "]";
  }

  // ---------------------------------------------------------------------
  // The manager

  /** The state `SecurityLogManager` keeps between queries: the entries read
      from the log, the smallest and largest time stamp values among them,
      and whether the list is already in UserComparator order. */
  datatype SecurityLogManager = SecurityLogManager(logEntryList: AL.ArrayList<LogEntry>,
                                                   minTimeStamp: int, maxTimeStamp: int, sorted: bool)

  ghost predicate Valid(m: SecurityLogManager) {
    && m.logEntryList.Valid()
    && (m.sorted ==> SortedBy(UserCompare, m.logEntryList.Elements()))
  }

  /** The window checks of `generateOperationalProfile`: the window is open when it is not empty and overlaps the
      span of the log. */
  predicate OpenWindow(m: SecurityLogManager, start: int, end: int) {
    start < end && start < m.maxTimeStamp && end > m.minTimeStamp
  }

  /** The list with its entries replaced by `ents`, which has the same length. */
  function WithEntries(l: AL.ArrayList<LogEntry>, ents: seq<LogEntry>): (r: AL.ArrayList<LogEntry>)
    requires l.Valid() && |ents| == l.size
    ensures r.Valid() && r.Elements() == ents && r.Capacity() == l.Capacity()
  {
    AL.FromElements(ents, l.Capacity())
  }

  /** Changing frequencies keeps UserComparator order, which ignores them. */
  lemma UserOrderIgnoresFrequency(ents0: seq<LogEntry>, t: Tally)
    requires SameButFreq(ents0, t) && SortedBy(UserCompare, ents0)
    ensures SortedBy(UserCompare, t.entries)
  {
    forall i, j | 0 <= i < j < |t.entries|
      ensures UserCompare(t.entries[i], t.entries[j]) <= 0
    {
      assert t.entries[i].(freq := ents0[i].freq) == ents0[i];
      assert t.entries[j].(freq := ents0[j].freq) == ents0[j];
      assert UserCompare(t.entries[i], t.entries[j]) == UserCompare(ents0[i], ents0[j]);
    }
  }

  /** `generateOperationalProfile(startTime, endTime)` as written: a
      malformed time throws, a window that cannot hold activity gives
      NO_ACTIVITY, and otherwise the window's (action, resource) pairs are
      listed most frequent first. The frequencies live in the stored
      entries, so the manager that comes back carries them. */
  method GenerateOperationalProfile(m: SecurityLogManager, startTime: string, endTime: string,
                                    compress: (int, int) -> int, percent: (int, int) -> string)
      returns (r: Result<(string, SecurityLogManager)>)
    requires Valid(m) && CompressValid(compress)
    ensures TimeStamps.Parse(startTime).Err? ==> r == Err(TimeStamps.Parse(startTime).exc)
    ensures TimeStamps.Parse(startTime).Ok? && TimeStamps.Parse(endTime).Err? ==>
              r == Err(TimeStamps.Parse(endTime).exc)
    ensures TimeStamps.Parse(startTime).Ok? && TimeStamps.Parse(endTime).Ok? ==>
              var start, end := TimeStamps.Parse(startTime).value.val, TimeStamps.Parse(endTime).value.val;
              var ents0 := m.logEntryList.Elements();
              var t := TallyUpTo(ents0, start, end, |ents0|);
              && r.Ok? && Valid(r.value.1)
              && (!OpenWindow(m, start, end) ==> r.value == (NO_ACTIVITY, m))
              && (OpenWindow(m, start, end) ==>
                    && r.value.1 == m.(logEntryList := WithEntries(m.logEntryList, t.entries))
                    && exists order :: IsProfileOrder(t, order) && r.value.0 == ProfileText(t, order, percent))
  {
    var st := TimeStamps.Parse(startTime);
    if st.Err? {
      return Err(st.exc);
    }
    var et := TimeStamps.Parse(endTime);
    if et.Err? {
      return Err(et.exc);
    }
    var start, end := st.value.val, et.value.val;
    if start >= end || start >= m.maxTimeStamp || end <= m.minTimeStamp {
      return Ok((NO_ACTIVITY, m));
    }
    var ents0 := m.logEntryList.Elements();
    var ents, out, total := TallyWindow(ents0, start, end, compress);
    ByIndexIsComparator(ents);
    var sortedOut := AL.Sort(out, ByIndex(ents));
    var text := RenderProfile(ents, sortedOut, total, percent);
    var t := TallyUpTo(ents0, start, end, |ents0|);
    assert IsProfileOrder(t, sortedOut.Elements());
    SameButFreqFacts(ents0, start, end, |ents0|);
    if m.sorted {
      UserOrderIgnoresFrequency(ents0, t);
    }
    return Ok((text, m.(logEntryList := WithEntries(m.logEntryList, ents))));
  }

  // ---------------------------------------------------------------------
  // What the profile reports

  /** `b` is `a` with some frequencies changed. */
  ghost predicate FreqOnlyDiffers(a: seq<LogEntry>, b: seq<LogEntry>) {
    && |a| == |b|
    && forall j :: 0 <= j < |a| ==> b[j].(freq := a[j].freq) == a[j]
  }

  lemma {:induction false} CountKeyIgnoresFreq(a: seq<LogEntry>, b: seq<LogEntry>, n: int, start: int, end: int,
                                               k: (string, string))
    requires FreqOnlyDiffers(a, b) && 0 <= n <= |a|
    ensures CountKey(b, n, start, end, k) == CountKey(a, n, start, end, k)
    ensures CountWindow(b, n, start, end) == CountWindow(a, n, start, end)
  {
    if n > 0 {
      CountKeyIgnoresFreq(a, b, n - 1, start, end, k);
      assert b[n - 1].(freq := a[n - 1].freq) == a[n - 1];
    }
  }

  lemma {:induction false} FindKeyIgnoresFreq(a: seq<LogEntry>, b: seq<LogEntry>, out: seq<int>, k: (string, string))
    requires FreqOnlyDiffers(a, b)
    ensures FindKey(b, out, k) == FindKey(a, out, k)
  {
    if |out| > 0 {
      FindKeyIgnoresFreq(a, b, out[1..], k);
      if 0 <= out[0] < |a| {
        assert b[out[0]].(freq := a[out[0]].freq) == a[out[0]];
      }
    }
  }

  /** Which entries the tally lists, and its total, do not depend on the
      frequencies the entries start with. */
  lemma {:induction false} TallyIgnoresFreq(a: seq<LogEntry>, b: seq<LogEntry>, start: int, end: int, i: int)
    requires FreqOnlyDiffers(a, b) && 0 <= i <= |a|
    ensures TallyUpTo(b, start, end, i).out == TallyUpTo(a, start, end, i).out
    ensures TallyUpTo(b, start, end, i).total == TallyUpTo(a, start, end, i).total
  {
    if i > 0 {
      TallyIgnoresFreq(a, b, start, end, i - 1);
      assert b[i - 1].(freq := a[i - 1].freq) == a[i - 1];
      FindKeyIgnoresFreq(a, b, TallyUpTo(a, start, end, i - 1).out, Key(a[i - 1]));
    }
  }

  /** The profile lists every (action, resource) pair of the window, once
      each, through its first entry in the window. */
  lemma WindowKeysListedOnce(ents0: seq<LogEntry>, start: int, end: int)
    ensures var t := TallyUpTo(ents0, start, end, |ents0|);
            && (forall x :: x in t.out ==> InWindow(ents0[x], start, end))
            && (forall q :: 0 <= q < |ents0| && InWindow(ents0[q], start, end) ==>
                  FindKey(ents0, t.out, Key(ents0[q])).Some?)
            && (forall x, y :: x in t.out && y in t.out && Key(ents0[x]) == Key(ents0[y]) ==> x == y)
  {
    var t := TallyUpTo(ents0, start, end, |ents0|);
    OutFacts(ents0, start, end, |ents0|);
    forall x, y | x in t.out && y in t.out && Key(ents0[x]) == Key(ents0[y])
      ensures x == y
    {
      OutKeysDistinct(ents0, start, end, x, y);
    }
    forall x | x in t.out
      ensures InWindow(ents0[x], start, end)
    {
      assert FirstSeen(ents0, start, end, x);
    }
  }

  /** A window entry before `n` makes the window count positive. */
  lemma {:induction false} CountWindowPositive(ents: seq<LogEntry>, n: int, start: int, end: int, x: int)
    requires 0 <= x < n <= |ents| && InWindow(ents[x], start, end)
    ensures CountWindow(ents, n, start, end) > 0
  {
    if x < n - 1 {
      CountWindowPositive(ents, n - 1, start, end, x);
    }
  }

  /** A window that passes validation but holds no entry renders the bare
      frame of the profile, not the no-activity text. */
  lemma EmptyWindowProfile(ents0: seq<LogEntry>, start: int, end: int, order: seq<int>,
                           percent: (int, int) -> string)
    requires CountWindow(ents0, |ents0|, start, end) == 0
    requires IsProfileOrder(TallyUpTo(ents0, start, end, |ents0|), order)
    ensures ProfileText(TallyUpTo(ents0, start, end, |ents0|), order, percent) == "OperationalProfile[\n]"
    ensures ProfileText(TallyUpTo(ents0, start, end, |ents0|), order, percent) != NO_ACTIVITY
  {
    var t := TallyUpTo(ents0, start, end, |ents0|);
    if |t.out| > 0 {
      WindowKeysListedOnce(ents0, start, end);
      assert t.out[0] in t.out;
      CountWindowPositive(ents0, |ents0|, start, end, t.out[0]);
    }
    assert |order| == |multiset(order)| == |multiset(t.out)| == 0;
  }

  lemma {:induction false} SumFreqOnes(ents: seq<LogEntry>, o: seq<int>)
    requires forall x :: x in o ==> 0 <= x < |ents| && ents[x].freq == 1
    ensures SumFreq(ents, o) == |o|
  {
    if |o| > 0 {
      assert o[|o| - 1] in o;
      var front := o[..|o| - 1];
      forall x | x in front
        ensures 0 <= x < |ents| && ents[x].freq == 1
      {
        var k :| 0 <= k < |front| && front[k] == x;
        assert o[k] == x && o[k] in o;
      }
      SumFreqOnes(ents, front);
    }
  }

  /** Every frequency back at the 1 the constructor starts it at. */
  function FreshCounts(ents: seq<LogEntry>): (r: seq<LogEntry>)
    ensures FreqOnlyDiffers(ents, r)
    ensures forall j :: 0 <= j < |r| ==> r[j].freq == 1
  {
    seq(|ents|, j requires 0 <= j < |ents| => ents[j].(freq := 1))
  }

  /** Counting from fresh frequencies, each listed entry reports how many
      window entries share its action and resource, and the frequencies
      add up to the window total. */
  lemma FreshTallyCounts(ents0: seq<LogEntry>, start: int, end: int)
    ensures var n := |ents0|;
            var t := TallyUpTo(FreshCounts(ents0), start, end, n);
            && (forall x :: x in t.out ==> t.entries[x].freq == CountKey(ents0, n, start, end, Key(ents0[x])))
            && SumFreq(t.entries, t.out) == t.total == CountWindow(ents0, n, start, end)
  {
    var n := |ents0|;
    var f := FreshCounts(ents0);
    var t := TallyUpTo(f, start, end, n);
    FreqCountsFacts(f, start, end, n);
    SumFreqFacts(f, start, end, n);
    TotalFacts(f, start, end, n);
    forall x | x in t.out
      ensures t.entries[x].freq == CountKey(ents0, n, start, end, Key(ents0[x]))
    {
      assert f[x].(freq := ents0[x].freq) == ents0[x];
      CountKeyIgnoresFreq(ents0, f, n, start, end, Key(ents0[x]));
    }
    CountKeyIgnoresFreq(ents0, f, n, start, end, ("", ""));
    SumFreqOnes(f, t.out);
  }

  /** As written, a second profile of the same window, over the entries
      the first one left behind, counts a pair seen c times as 2c - 1,
      while the first reported c. */
  lemma SecondProfileOverCounts(ents0: seq<LogEntry>, start: int, end: int)
    requires forall j :: 0 <= j < |ents0| ==> ents0[j].freq == 1
    ensures var n := |ents0|;
            var t1 := TallyUpTo(ents0, start, end, n);
            var t2 := TallyUpTo(t1.entries, start, end, n);
            && t2.out == t1.out
            && (forall x :: x in t1.out ==> t1.entries[x].freq == CountKey(ents0, n, start, end, Key(ents0[x])))
            && (forall x :: x in t2.out ==> t2.entries[x].freq == 2 * CountKey(ents0, n, start, end, Key(ents0[x])) - 1)
  {
    var n := |ents0|;
    var t1 := TallyUpTo(ents0, start, end, n);
    var e1 := t1.entries;
    SameButFreqFacts(ents0, start, end, n);
    assert FreqOnlyDiffers(ents0, e1);
    TallyIgnoresFreq(ents0, e1, start, end, n);
    FreqCountsFacts(ents0, start, end, n);
    FreqCountsFacts(e1, start, end, n);
    forall x | x in t1.out
      ensures e1[x].freq == CountKey(ents0, n, start, end, Key(ents0[x]))
      ensures TallyUpTo(e1, start, end, n).entries[x].freq == 2 * CountKey(ents0, n, start, end, Key(ents0[x])) - 1
    {
      assert e1[x].(freq := ents0[x].freq) == ents0[x];
      CountKeyIgnoresFreq(ents0, e1, n, start, end, Key(ents0[x]));
    }
  }

  /** The smallest case: two entries with the same action and resource in
      the window. The first profile reports frequency 2, the second 3. */
  lemma SecondProfileExample(e: LogEntry, start: int, end: int)
    requires e.freq == 1 && InWindow(e, start, end)
    ensures var t1 := TallyUpTo([e, e], start, end, 2);
            var t2 := TallyUpTo(t1.entries, start, end, 2);
            && t1.out == t2.out == [0]
            && t1.entries[0].freq == 2 && t2.entries[0].freq == 3
  {
    var ents := [e, e];
    assert TallyUpTo(ents, start, end, 0).out == [];
    assert FindKey(ents, [], Key(e)) == None;
    var t1 := TallyUpTo(ents, start, end, 1);
    assert t1.out == [0];
    assert FindKey(ents, [0], Key(e)) == Some(0);
    SecondProfileOverCounts([e, e], start, end);
    assert CountKey([e, e], 2, start, end, Key(e)) == 2;
  }

  /** `generateOperationalProfile` as evidently intended: every frequency
      is counted from the constructor's 1 on each call, so the stored
      entries, and the manager, are left as they were. */
  method GenerateFreshProfile(m: SecurityLogManager, startTime: string, endTime: string,
                              compress: (int, int) -> int, percent: (int, int) -> string)
      returns (r: Result<string>)
    requires Valid(m) && CompressValid(compress)
    ensures TimeStamps.Parse(startTime).Err? ==> r == Err(TimeStamps.Parse(startTime).exc)
    ensures TimeStamps.Parse(startTime).Ok? && TimeStamps.Parse(endTime).Err? ==>
              r == Err(TimeStamps.Parse(endTime).exc)
    ensures TimeStamps.Parse(startTime).Ok? && TimeStamps.Parse(endTime).Ok? ==>
              var start, end := TimeStamps.Parse(startTime).value.val, TimeStamps.Parse(endTime).value.val;
              var ents0 := m.logEntryList.Elements();
              var t := TallyUpTo(FreshCounts(ents0), start, end, |ents0|);
              && r.Ok?
              && (!OpenWindow(m, start, end) ==> r.value == NO_ACTIVITY)
              && (OpenWindow(m, start, end) ==>
                    exists order :: IsProfileOrder(t, order) && r.value == ProfileText(t, order, percent))
  {
    var st := TimeStamps.Parse(startTime);
    if st.Err? {
      return Err(st.exc);
    }
    var et := TimeStamps.Parse(endTime);
    if et.Err? {
      return Err(et.exc);
    }
    var start, end := st.value.val, et.value.val;
    if start >= end || start >= m.maxTimeStamp || end <= m.minTimeStamp {
      return Ok(NO_ACTIVITY);
    }
    var ents0 := FreshCounts(m.logEntryList.Elements());
    var ents, out, total := TallyWindow(ents0, start, end, compress);
    ByIndexIsComparator(ents);
    var sortedOut := AL.Sort(out, ByIndex(ents));
    var text := RenderProfile(ents, sortedOut, total, percent);
    assert IsProfileOrder(TallyUpTo(ents0, start, end, |ents0|), sortedOut.Elements());
    return Ok(text);
  }

  // ---------------------------------------------------------------------
  // The user report

  /** The entries of user `u`, in list order. */
  function OfUser(ents: seq<LogEntry>, u: string): (r: seq<LogEntry>)
    ensures |r| <= |ents|
  {
    if |ents| == 0 then []
    else OfUser(ents[..|ents| - 1], u) + (if ents[|ents| - 1].user == u then [ents[|ents| - 1]] else [])
  }

  /** One line of the user report: time stamp as read, action and resource. */
  function UserLine(e: LogEntry): string {
    "   " + e.timeStamp.originalString + " - " + e.action + " " + e.resource + "\n"
  }

  function UserLines(es: seq<LogEntry>): string {
    if |es| == 0 then "" else UserLines(es[..|es| - 1]) + UserLine(es[|es| - 1])
  }

  function ReportHeader(u: string): string {
    "Activity Report for " + u + "[\n"
  }

  const NO_USER_ACTIVITY: string := "   No activity was recorded.\n"

  /** The report on user `u` over the list `ents`. */
  function UserReport(ents: seq<LogEntry>, u: string): string {
    var mine := OfUser(ents, u);
    ReportHeader(u) + (if |mine| == 0 then NO_USER_ACTIVITY else UserLines(mine)) + "]"
  }

  /** The report lists each entry of the user as often as the log holds it,
      and nothing else. */
  lemma {:induction false} OfUserCount(ents: seq<LogEntry>, u: string, x: LogEntry)
    ensures multiset(OfUser(ents, u))[x] == if x.user == u then multiset(ents)[x] else 0
  {
    if |ents| > 0 {
      OfUserCount(ents[..|ents| - 1], u, x);
      assert ents == ents[..|ents| - 1] + [ents[|ents| - 1]];
    }
  }

  lemma OfUserEmpty(ents: seq<LogEntry>, u: string)
    ensures |OfUser(ents, u)| == 0 <==> forall k :: 0 <= k < |ents| ==> ents[k].user != u
  {
    if exists k :: 0 <= k < |ents| && ents[k].user == u {
      var k :| 0 <= k < |ents| && ents[k].user == u;
      OfUserCount(ents, u, ents[k]);
      assert ents[k] in multiset(ents);
    } else {
      if |OfUser(ents, u)| > 0 {
        var x := OfUser(ents, u)[0];
        OfUserCount(ents, u, x);
        assert x in multiset(OfUser(ents, u));
        assert x in multiset(ents);
      }
    }
  }

  /** The report's entries, like the list they come from, depend only on
      which entries the log holds, not on the order the list is in. */
  lemma OfUserPermutation(a: seq<LogEntry>, b: seq<LogEntry>, u: string)
    requires multiset(a) == multiset(b)
    ensures multiset(OfUser(a, u)) == multiset(OfUser(b, u))
  {
    forall x
      ensures multiset(OfUser(a, u))[x] == multiset(OfUser(b, u))[x]
    {
      OfUserCount(a, u, x);
      OfUserCount(b, u, x);
    }
  }

  lemma OfUserMember(ents: seq<LogEntry>, u: string, x: LogEntry)
    requires x in OfUser(ents, u)
    ensures x.user == u && exists p :: 0 <= p < |ents| && ents[p] == x
  {
    OfUserCount(ents, u, x);
    assert x in multiset(OfUser(ents, u));
    assert x in multiset(ents);
  }

  /** Ascending time stamp order. */
  ghost predicate OldestFirst(r: seq<LogEntry>) {
    forall i, j :: 0 <= i < j < |r| ==> r[i].timeStamp.val <= r[j].timeStamp.val
  }

  /** On a list in UserComparator order, the report is oldest first. */
  lemma {:induction false} OfUserOldestFirst(ents: seq<LogEntry>, u: string)
    requires SortedBy(UserCompare, ents)
    ensures OldestFirst(OfUser(ents, u))
  {
    if |ents| > 0 {
      var last := |ents| - 1;
      var front := ents[..last];
      assert SortedBy(UserCompare, front);
      OfUserOldestFirst(front, u);
      var f := OfUser(front, u);
      var r := OfUser(ents, u);
      if ents[last].user == u {
        assert r == f + [ents[last]];
        forall i, j | 0 <= i < j < |r|
          ensures r[i].timeStamp.val <= r[j].timeStamp.val
        {
          if j == |f| {
            assert r[i] == f[i] && f[i] in f && r[j] == ents[last];
            OfUserMember(front, u, f[i]);
            var p :| 0 <= p < |front| && front[p] == f[i];
            assert ents[p] == f[i];
            SortedByUserOrdersTimeStamps(ents, p, last);
          } else {
            assert r[i] == f[i] && r[j] == f[j];
          }
        }
      } else {
        assert r == f + [];
        assert r == f;
      }
    }
  }

  lemma UserLinesSnoc(ents: seq<LogEntry>, u: string, i: int)
    requires 0 <= i < |ents|
    ensures UserLines(OfUser(ents[..i + 1], u))
         == UserLines(OfUser(ents[..i], u)) + (if ents[i].user == u then UserLine(ents[i]) else "")
  {
    assert ents[..i + 1][..i] == ents[..i];
    var f := OfUser(ents[..i], u);
    if ents[i].user == u {
      assert (f + [ents[i]])[..|f|] == f;
    } else {
      assert f + [] == f;
    }
  }

  /** The rendering loop of `getUserReport`: the header, then one line per
      entry of the user, in list order. */
  method RenderUserLines(l: AL.ArrayList<LogEntry>, userID: string) returns (sb: string)
    requires l.Valid()
    ensures sb == ReportHeader(userID) + UserLines(OfUser(l.Elements(), userID))
  {
    sb := ReportHeader(userID);
    var i := 0;
    while i < AL.Size(l)
      invariant 0 <= i <= l.size
      invariant sb == ReportHeader(userID) + UserLines(OfUser(l.Elements()[..i], userID))
    {
      var current := AL.Get(l, i).value;
      UserLinesSnoc(l.Elements(), userID, i);
      if current.user == userID {
        AppendAssociative(ReportHeader(userID), UserLines(OfUser(l.Elements()[..i], userID)), UserLine(current));
        sb := sb + UserLine(current);
      }
      i := i + 1;
    }
    assert l.Elements()[..i] == l.Elements();
  }

  /** The start of `getUserReport`: the list is put in UserComparator order the first
      time a report is asked for. */
  method SortOnce(m: SecurityLogManager) returns (m': SecurityLogManager)
    requires Valid(m)
    ensures Valid(m') && m'.sorted
    ensures m.sorted ==> m' == m
    ensures m' == m.(logEntryList := m'.logEntryList, sorted := true)
    ensures m'.logEntryList.Capacity() == m.logEntryList.Capacity()
    ensures multiset(m'.logEntryList.Elements()) == multiset(m.logEntryList.Elements())
  {
    m' := m;
    if !m.sorted {
      UserCompareIsComparator();
      var l := AL.Sort(m.logEntryList, UserCompare);
      m' := m.(logEntryList := l, sorted := true);
    }
  }

  /** The rest of `getUserReport`, on a list in UserComparator order: the binary search
      with a dummy entry decides between the two shapes of the report. */
  method ReportFromSorted(l: AL.ArrayList<LogEntry>, userID: string) returns (report: string)
    requires l.Valid() && SortedBy(UserCompare, l.Elements())
    ensures report == UserReport(l.Elements(), userID)
  {
    TimeStamps.DummyStamp();
    var dummy := NewEntry(userID, "01/01/2000 12:00:00AM", "action", "resource").value;
    UserOnlyCompareIsComparator();
    SortedByUserIsSortedByUserOnly(l.Elements());
    var idx := AL.Contains(l, dummy, UserOnlyCompare).value;
    OfUserEmpty(l.Elements(), userID);
    if idx == -1 {
      report := ReportHeader(userID) + NO_USER_ACTIVITY + "]";
    } else {
      var sb := RenderUserLines(l, userID);
      report := sb + "]";
    }
  }

  /** `getUserReport(userID)`: sorts the list by UserComparator the first
      time, binary-searches it for the user with a dummy entry, and lists
      the user's entries in list order, or says there are none. */
  method GetUserReport(m: SecurityLogManager, userID: string) returns (report: string, m': SecurityLogManager)
    requires Valid(m)
    ensures Valid(m') && m'.sorted
    ensures m.sorted ==> m' == m
    ensures m' == m.(logEntryList := m'.logEntryList, sorted := true)
    ensures m'.logEntryList.Capacity() == m.logEntryList.Capacity()
    ensures multiset(m'.logEntryList.Elements()) == multiset(m.logEntryList.Elements())
    ensures report == UserReport(m'.logEntryList.Elements(), userID)
  {
    m' := SortOnce(m);
    report := ReportFromSorted(m'.logEntryList, userID);
  }
}
