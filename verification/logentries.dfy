/** `LogEntry`: one line of the access log. Equality and hashing look only
    at the (action, resource) pair; the frequency is the one mutable field
    and only ever grows by one. */
module LogEntries {
  import opened Outcomes
  import opened JavaStrings
  import opened TimeStamps
  import AL = ArrayLists

  /** `hashCache` is the memo field of `hashCode` (0 = not computed yet);
      `freq` is the occurrence counter used by the operational profile. */
  datatype LogEntry = LogEntry(user: string, timeStamp: TimeStamp, action: string,
                               resource: string, hashCache: int, freq: int)

  /** The constructor: parses the time stamp (throwing on malformed text),
      starts the frequency at 1 and leaves the hash code uncomputed. */
  function NewEntry(user: string, timeStamp: string, action: string, resource: string)
    : (r: Result<LogEntry>)
    ensures r.Ok? <==> Parse(timeStamp).Ok?
    ensures r.Ok? ==> && r.value.freq == 1 && r.value.hashCache == 0
                      && r.value.user == user && r.value.action == action
                      && r.value.resource == resource
                      && r.value.timeStamp.originalString == timeStamp
  {
    match Parse(timeStamp)
    case Err(e) => Err(e)
    case Ok(ts) => Ok(LogEntry(user, ts, action, resource, 0, 1))
  }

  /** `incrementFrequency`. */
  function IncrementFrequency(e: LogEntry): (r: LogEntry)
    ensures r.freq == e.freq + 1
    ensures r.(freq := e.freq) == e
  {
    e.(freq := e.freq + 1)
  }

  /** `compareTo` of the natural order: unused by the program and constant. */
  function CompareTo(e: LogEntry, other: LogEntry): (r: int)
    ensures r == 0
  {
    0
  }

  /** `addSorted` under the natural order of `LogEntry`. Since `compareTo`
      ties every pair, a non-empty list never takes the fast path and the
      scan finds no greater element: the entry is refused and the list keeps
      its elements (a full list still grows first). Only an empty list with
      room takes the entry. */
  method AddSortedNatural(l: AL.ArrayList<LogEntry>, e: LogEntry)
      returns (r: Result<(bool, AL.ArrayList<LogEntry>)>)
    requires l.Valid()
    ensures l.size > 0 ==>
              && r.Ok? && !r.value.0 && r.value.1.Valid()
              && r.value.1.Elements() == l.Elements()
              && r.value.1.Capacity() == (if l.size == l.Capacity() then 2 * l.Capacity() else l.Capacity())
    ensures l.size == 0 ==>
              if l.Capacity() == 0 then r == Err(ArrayIndexOutOfBounds)
              else r.Ok? && r.value.0 && r.value.1.Valid() && r.value.1.Elements() == [e]
  {
    r := AL.AddSorted(l, e, CompareTo);
  }

  /** `toString`: the entry as it appears in the input file. */
  function ToString(e: LogEntry): string {
    e.user + ", " + e.timeStamp.originalString + ", " + e.action + ", " + e.resource
  }

  /** The rendering lays the four fields out in order, user first and
      resource last, with ", " between neighbours. */
  lemma ToStringLayout(e: LogEntry)
    ensures var s, u, t, a := ToString(e), |e.user|, |e.timeStamp.originalString|, |e.action|;
            && |s| == u + t + a + |e.resource| + 6
            && s[..u] == e.user && s[u..u + 2] == ", "
            && s[u + 2..u + 2 + t] == e.timeStamp.originalString && s[u + 2 + t..u + 4 + t] == ", "
            && s[u + 4 + t..u + 4 + t + a] == e.action && s[u + 4 + t + a..u + 6 + t + a] == ", "
            && s[u + 6 + t + a..] == e.resource
  {
  }

  /** The identity used by `equals` and `hashCode`. */
  function Key(e: LogEntry): (string, string) {
    (e.action, e.resource)
  }

  /** The value `hashCode` computes: 31 * (31 * 1 + h(action)) + h(resource) in `int`. */
  function KeyHash(k: (string, string)): (h: int)
    ensures MIN_INT <= h <= MAX_INT
  {
    Wrap32(31 * Wrap32(31 * 1 + HashString(k.0)) + HashString(k.1))
  }

  /** The cache holds nothing or the hash of the entry's own key. */
  predicate HashCacheValid(e: LogEntry) {
    e.hashCache == 0 || e.hashCache == KeyHash(Key(e))
  }

  /** `hashCode`: returns the hash and the entry with its cache filled in. */
  function HashCode(e: LogEntry): (r: (int, LogEntry))
    requires HashCacheValid(e)
    ensures r.0 == KeyHash(Key(e))
    ensures HashCacheValid(r.1) && r.1.(hashCache := e.hashCache) == e
  {
    if e.hashCache == 0 then
      var result := KeyHash(Key(e));
      (result, e.(hashCache := result))
    else
      (e.hashCache, e)
  }

  /** Repeated calls give the same hash, whether or not the first call filled
      the cache (a hash equal to the 0 sentinel is simply recomputed). */
  lemma HashCodeStable(e: LogEntry)
    requires HashCacheValid(e)
    ensures HashCode(HashCode(e).1).0 == HashCode(e).0
    ensures HashCode(e).0 == HashCode(e.(hashCache := 0)).0
  {
  }

  /** `equals`: same action and same resource. */
  predicate Equals(e: LogEntry, other: LogEntry) {
    e.action == other.action && e.resource == other.resource
  }

  /** `equals` ignores the user, the time stamp, the frequency and the cache. */
  lemma EqualsIgnoresOtherFields(e: LogEntry, other: LogEntry, u: string, t: TimeStamp,
                                 c: int, f: int)
    ensures Equals(e, other) == Equals(e.(user := u, timeStamp := t, hashCache := c, freq := f), other)
    ensures Equals(e, other) <==> Key(e) == Key(other)
  {
  }

  lemma EqualsIsEquivalence(a: LogEntry, b: LogEntry, d: LogEntry)
    ensures Equals(a, a)
    ensures Equals(a, b) ==> Equals(b, a)
    ensures Equals(a, b) && Equals(b, d) ==> Equals(a, d)
  {
  }

  /** Equal entries hash alike, as hashing a table requires. */
  lemma EqualsConsistentWithHash(a: LogEntry, b: LogEntry)
    requires HashCacheValid(a) && HashCacheValid(b)
    requires Equals(a, b)
    ensures HashCode(a).0 == HashCode(b).0
  {
  }
}
