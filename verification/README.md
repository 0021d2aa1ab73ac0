# Security log manager, modelled in Dafny

This project models the core of SecurityLogManager2. That program reads an
access log, where each record holds a user, a time stamp, an action and a
resource. It answers two queries:

- The **operational profile** of a time window lists every (action,
  resource) pair seen in the window, with its frequency and percentage,
  most frequent first.
- The **user report** lists one user's records, oldest first.

The queries sit on two hand-built containers: a growable `ArrayList` with
sorted insertion, recursive binary search and a randomised quicksort, and a
separately chained `HashTable` that rehashes at a load factor of 0.75.

The model is written over values. Every container is an immutable
datatype, and every Java mutator becomes a function or method that returns
the new value. Exceptions become `Outcomes.Result` values, and a Java
`null` becomes `Outcomes.Option.None`.

| module | Java source | file |
|---|---|---|
| `Outcomes` | exceptions and `null` | outcomes.dfy |
| `JavaStrings` | `String.compareTo`, `String.hashCode`, `Integer.parseInt`, rendering of `int` | javastrings.dfy |
| `Orders` | the `Comparator` interface contract | orders.dfy |
| `TimeStamps` | `data/TimeStamp.java` | timestamps.dfy |
| `LogEntries` | `data/LogEntry.java` | logentries.dfy |
| `Comparators` | `ARComparator`, `UserComparator`, `UserOnlyComparator` | comparators.dfy |
| `ArrayLists` | `list/ArrayList.java` | arraylists.dfy |
| `HashTables` | `dictionary/HashTable.java` | hashtables.dfy |
| `Manager` | `generateOperationalProfile` and `getUserReport` of `manager/SecurityLogManager.java` | manager.dfy |

How the model represents the Java objects:

- An `ArrayList` keeps its backing array: a sequence of optional slots
  whose length is the capacity, plus `size`. This keeps capacity growth
  and the raw store past the end of the array visible.
- A hash table bucket is the sequence of its linked list's elements, front
  first. A null bucket is the empty sequence.
- In the profile, `LogEntry` objects are shared between `logEntryList`, the
  hash table and the output list, and a frequency increment through one is
  seen through the others. The model therefore stores *indices* into the
  entry sequence in the table and in `out`, and an increment updates the
  sequence.
- The first loop of `generateOperationalProfile` is proved equal to a
  reference tally, `Manager.TallyUpTo`. That tally replaces the hash lookup
  by a linear search of `out` for the same key.

Details of the code that the model keeps:

- `HashTable.INIT_SIZE` is `2 ^ 14`, which in Java is an exclusive or, so
  the table starts with 12 buckets.
- `addSorted` takes its append fast path only when the last element is
  strictly smaller than `e`. An element equal to the current maximum
  therefore reaches the scan, finds nothing greater, and is refused with
  `false`.
- The fast path of `addSorted` does not grow the array (see Findings).
- The frequencies are not reset between profile queries (see Findings).

## Model

| member | source | states |
|---|---|---|
| TimeStamps.Parse | SecurityLogManager2/src/edu/ncsu/csc316/security_log/data/TimeStamp.java:18-57 | The constructor keeps the text it was given (`getOriginalString`). It succeeds exactly when the text has at least 19 characters and all six fixed-position fields parse as `int`s (over ASCII digits, see Left out); otherwise it throws. |
| TimeStamps.HourConversion | SecurityLogManager2/src/edu/ncsu/csc316/security_log/data/TimeStamp.java:35-44 | The 12-hour to 24-hour fix maps 12 AM to 0, 12 PM to 12, 1-11 PM to 13-23 and leaves 1-11 AM alone: the result is in [0, 24), agrees with the hour modulo 12, and is before noon exactly for AM. |
| TimeStamps.ParseWellFormed | SecurityLogManager2/src/edu/ncsu/csc316/security_log/data/TimeStamp.java:22-55 | A well-formed "MM/DD/YYYY hh:mm:ssAM/PM" string parses to Y·10^10 + M·10^8 + D·10^6 + H24·10^4 + Mi·10^2 + S. |
| TimeStamps.PackOrder | SecurityLogManager2/src/edu/ncsu/csc316/security_log/data/TimeStamp.java:22-55 | When every field below the year is under 100, one packed value is below another exactly when its (year, month, day, hour, minute, second) is lexicographically below, and the values are equal exactly when the fields are. |
| TimeStamps.SampleMinimum | SecurityLogManager2/test/edu/ncsu/csc316/security_log/dictionary/HashTableTest.java:73 | "05/04/2015 02:09:40PM" packs to 20150504140940. |
| TimeStamps.SampleMaximum | SecurityLogManager2/test/edu/ncsu/csc316/security_log/dictionary/HashTableTest.java:74 | "11/20/2017 11:38:22AM" packs to 20171120113822. |
| TimeStamps.DummyStamp | SecurityLogManager2/src/edu/ncsu/csc316/security_log/manager/SecurityLogManager.java:155 | The time stamp of the user report's dummy entry parses (to midnight, 1 January 2000), so building the dummy never throws. |
| TimeStamps.CompareTo | SecurityLogManager2/src/edu/ncsu/csc316/security_log/data/TimeStamp.java:82-91 | `compareTo` returns only -1, 0 or 1, with the sign of the difference of the packed values. |
| TimeStamps.CompareToIsComparator | SecurityLogManager2/src/edu/ncsu/csc316/security_log/data/TimeStamp.java:82-91 | `compareTo` is antisymmetric and transitive. |
| JavaStrings.IntToStringRoundTrip | SecurityLogManager2/src/edu/ncsu/csc316/security_log/manager/SecurityLogManager.java:127 | The decimal rendering of an `int` that the profile appends parses back to the same number. |
| LogEntries.NewEntry | SecurityLogManager2/src/edu/ncsu/csc316/security_log/data/LogEntry.java:34-41 | A new entry stores the given fields, frequency 1 and an empty hash cache. It fails exactly when its time stamp does not parse. |
| LogEntries.IncrementFrequency | SecurityLogManager2/src/edu/ncsu/csc316/security_log/data/LogEntry.java:89-91 | The frequency goes up by exactly one and no other field changes. |
| LogEntries.AddSortedNatural | SecurityLogManager2/src/edu/ncsu/csc316/security_log/data/LogEntry.java:101-103 | Because the natural order `compareTo` ties every pair, `addSorted` by it refuses every entry offered to a non-empty list and leaves its elements unchanged (a full list still doubles its capacity); only an empty list with room accepts the entry. |
| LogEntries.ToStringLayout | SecurityLogManager2/src/edu/ncsu/csc316/security_log/data/LogEntry.java:110-118 | `toString` lays out user, time stamp text, action and resource, in that order, separated by ", ". |
| LogEntries.HashCode | SecurityLogManager2/src/edu/ncsu/csc316/security_log/data/LogEntry.java:128-139 | The hash is 31·(31·1 + h(action)) + h(resource) in 32-bit arithmetic. The call may fill the cache and changes nothing else. |
| LogEntries.HashCodeStable | SecurityLogManager2/src/edu/ncsu/csc316/security_log/data/LogEntry.java:128-139 | Every call returns the same hash, whether the cache was filled or not, including a hash equal to the 0 sentinel. |
| LogEntries.EqualsIgnoresOtherFields | SecurityLogManager2/src/edu/ncsu/csc316/security_log/data/LogEntry.java:149-168 | `equals` holds exactly when action and resource are equal. User, time stamp, frequency and cache do not matter. |
| LogEntries.EqualsIsEquivalence | SecurityLogManager2/src/edu/ncsu/csc316/security_log/data/LogEntry.java:149-168 | `equals` is reflexive, symmetric and transitive. |
| LogEntries.EqualsConsistentWithHash | SecurityLogManager2/src/edu/ncsu/csc316/security_log/data/LogEntry.java:128-168 | Equal entries have equal hash codes. |
| Comparators.ARCompare | SecurityLogManager2/src/edu/ncsu/csc316/security_log/comparator/ARComparator.java:20-28 | Higher frequency sorts first. Ties fall through to action order, then to resource order. The result is 0 exactly when frequency, action and resource agree. |
| Comparators.ARCompareIsComparator | SecurityLogManager2/src/edu/ncsu/csc316/security_log/comparator/ARComparator.java:20-28 | The frequency-rank order is antisymmetric in sign and transitive. |
| Comparators.UserCompare | SecurityLogManager2/src/edu/ncsu/csc316/security_log/comparator/UserComparator.java:20-30 | The order is user, then time stamp value, then action, then resource. The result is 0 exactly when all four agree. |
| Comparators.UserCompareIsComparator | SecurityLogManager2/src/edu/ncsu/csc316/security_log/comparator/UserComparator.java:20-30 | The user-timeline order is antisymmetric in sign and transitive. |
| Comparators.UserOnlyCompare | SecurityLogManager2/src/edu/ncsu/csc316/security_log/comparator/UserOnlyComparator.java:18-20 | The result is 0 exactly when the users are equal. |
| Comparators.UserOnlyCompareIsComparator | SecurityLogManager2/src/edu/ncsu/csc316/security_log/comparator/UserOnlyComparator.java:18-20 | The user-only order is antisymmetric in sign and transitive. |
| Comparators.UserOnlyDependsOnUsers | SecurityLogManager2/src/edu/ncsu/csc316/security_log/comparator/UserOnlyComparator.java:18-20 | Only the two users matter, so a dummy entry carrying just the wanted user is a valid search key. |
| Comparators.UserCompareRefinesUserOnly | SecurityLogManager2/src/edu/ncsu/csc316/security_log/comparator/UserComparator.java:21-22 | Whenever the users differ, the user-timeline order agrees in sign with the user-only order. |
| Comparators.SortedByUserIsSortedByUserOnly | SecurityLogManager2/src/edu/ncsu/csc316/security_log/manager/SecurityLogManager.java:147-156 | A list sorted by the user-timeline order is sorted by the user-only order, as the binary search for the user requires. |
| Comparators.SortedByUserOrdersTimeStamps | SecurityLogManager2/src/edu/ncsu/csc316/security_log/comparator/UserComparator.java:23-24 | In a list sorted by the user-timeline order, one user's entries have ascending time stamps. |
| ArrayLists.New | SecurityLogManager2/src/edu/ncsu/csc316/security_log/list/ArrayList.java:39-43 | A negative capacity throws. Otherwise the list is empty and its capacity is the one asked for. |
| ArrayLists.Empty | SecurityLogManager2/src/edu/ncsu/csc316/security_log/list/ArrayList.java:48-50 | The no-argument list is empty with capacity 1000. |
| ArrayLists.GrowArray | SecurityLogManager2/src/edu/ncsu/csc316/security_log/list/ArrayList.java:138-149 | Growing doubles the capacity and keeps the elements. |
| ArrayLists.ShiftInsert | SecurityLogManager2/src/edu/ncsu/csc316/security_log/list/ArrayList.java:80-87 | The right shift and the store put the element at `idx` and move the tail up by one. |
| ArrayLists.Add | SecurityLogManager2/src/edu/ncsu/csc316/security_log/list/ArrayList.java:68-90 | Null is refused first, then an index outside [0, size]. Otherwise the result is old[..idx] + [e] + old[idx..], and the capacity doubles exactly when the list was full. |
| ArrayLists.Append | SecurityLogManager2/src/edu/ncsu/csc316/security_log/list/ArrayList.java:96-98 | Appending adds the element at the end, with the same growth rule and error cases as `add(int, E)`. |
| ArrayLists.AddSorted | SecurityLogManager2/src/edu/ncsu/csc316/security_log/list/ArrayList.java:105-132 | As written: the fast path fails on a full list. Otherwise the element goes before the first strictly greater element, and `false` means there is none and the list is unchanged. |
| ArrayLists.ScanInsert | SecurityLogManager2/src/edu/ncsu/csc316/security_log/list/ArrayList.java:120-131 | The scan inserts before the first strictly greater element, and reports `true` exactly when one exists. |
| ArrayLists.AddSortedGrowing | SecurityLogManager2/src/edu/ncsu/csc316/security_log/list/ArrayList.java:105-132 | With the growth rule applied to both paths, only a list of capacity 0 fails. Otherwise the element is appended or placed before the first greater element. |
| ArrayLists.AddSortedOnFullList | SecurityLogManager2/src/edu/ncsu/csc316/security_log/list/ArrayList.java:112-115 | On [1] at capacity 1, `addSorted(2)` as written throws ArrayIndexOutOfBounds, while the growing version returns [1, 2]. |
| ArrayLists.InsertAtFirstGreaterSorted | SecurityLogManager2/src/edu/ncsu/csc316/security_log/list/ArrayList.java:120-128 | On a sorted list, inserting before the first strictly greater element keeps the list sorted. |
| ArrayLists.AppendAboveLastSorted | SecurityLogManager2/src/edu/ncsu/csc316/security_log/list/ArrayList.java:112-115 | On a sorted list, appending an element above the last keeps the list sorted. |
| ArrayLists.AddSortedOnSortedList | SecurityLogManager2/src/edu/ncsu/csc316/security_log/list/ArrayList.java:112-131 | On a sorted list, an element that misses the fast path is refused exactly when it equals the current maximum. |
| ArrayLists.Remove | SecurityLogManager2/src/edu/ncsu/csc316/security_log/list/ArrayList.java:161-176 | An index outside [0, size) throws. Otherwise the call returns old[idx] and leaves old[..idx] + old[idx+1..] at the same capacity. |
| ArrayLists.Set | SecurityLogManager2/src/edu/ncsu/csc316/security_log/list/ArrayList.java:195-205 | Null is refused first, then an index outside [0, size). Otherwise the call returns the old element and changes only that index. |
| ArrayLists.Get | SecurityLogManager2/src/edu/ncsu/csc316/security_log/list/ArrayList.java:215-220 | `get` succeeds exactly inside [0, size) and returns the element at that index. |
| ArrayLists.Size | SecurityLogManager2/src/edu/ncsu/csc316/security_log/list/ArrayList.java:227-229 | `size()` is the number of live elements. |
| ArrayLists.GetAfterSet | SecurityLogManager2/src/edu/ncsu/csc316/security_log/list/ArrayList.java:195-220 | After `set`, `get` sees the new element at that index and the old elements everywhere else. |
| ArrayLists.BinarySearch | SecurityLogManager2/src/edu/ncsu/csc316/security_log/list/ArrayList.java:252-270 | A found index lies in the range and compares equal. Under a comparator the defensive throw cannot happen. On a sorted list, -1 means nothing in the range compares equal. |
| ArrayLists.Contains | SecurityLogManager2/src/edu/ncsu/csc316/security_log/list/ArrayList.java:237-243 | An empty list gives -1. On a list sorted by a comparator, the result is an index that compares equal, and -1 exactly when no element compares equal. |
| ArrayLists.GatherBelow | SecurityLogManager2/src/edu/ncsu/csc316/security_log/list/ArrayList.java:320-330 | The partition scan rearranges (low, high] so that the elements strictly below the pivot come first, ending just before `first`. |
| ArrayLists.Partition | SecurityLogManager2/src/edu/ncsu/csc316/security_log/list/ArrayList.java:304-334 | Partitioning rearranges [low, high] only. The pivot lands at `first - 1`, with strictly smaller elements before it and the rest after it. |
| ArrayLists.SortTwo | SecurityLogManager2/src/edu/ncsu/csc316/security_log/list/ArrayList.java:294-300 | A range of two is put in order by a permutation of the range. |
| ArrayLists.LeftCallDecreases | SecurityLogManager2/src/edu/ncsu/csc316/security_log/list/ArrayList.java:338 | The left recursive call includes the pivot, but it still works on a smaller measure: either a shorter range, or a pivot that sits as the strict maximum at the top of the range. |
| ArrayLists.RightCallDecreases | SecurityLogManager2/src/edu/ncsu/csc316/security_log/list/ArrayList.java:339 | The right recursive call works on a shorter range. |
| ArrayLists.CombineSorted | SecurityLogManager2/src/edu/ncsu/csc316/security_log/list/ArrayList.java:336-339 | After both recursive calls, the whole range is a sorted rearrangement of the original range. |
| ArrayLists.QuickSort | SecurityLogManager2/src/edu/ncsu/csc316/security_log/list/ArrayList.java:289-340 | For every choice of random pivot, quicksort terminates and leaves [low, high] sorted and a permutation of itself, with nothing outside the range touched. |
| ArrayLists.Sort | SecurityLogManager2/src/edu/ncsu/csc316/security_log/list/ArrayList.java:279-281 | `sort(c)` leaves a sorted permutation of the elements at the same size and capacity. |
| ArrayLists.SortedPermutationUnique | SecurityLogManager2/src/edu/ncsu/csc316/security_log/list/ArrayList.java:279-281 | When the comparator ties no two distinct elements, there is only one sorted permutation. The result of `sort` then does not depend on the random pivots, and sorting a sorted list changes nothing. |
| ArrayLists.AddAll | SecurityLogManager2/src/edu/ncsu/csc316/security_log/list/ArrayList.java:346-350 | The other list's elements are appended in order. Only a list of capacity 0 that receives at least one element fails. |
| HashTables.InitSizeValue | SecurityLogManager2/src/edu/ncsu/csc316/security_log/dictionary/HashTable.java:19 | `2 ^ 14` is 12. |
| HashTables.New | SecurityLogManager2/src/edu/ncsu/csc316/security_log/dictionary/HashTable.java:36-40 | A new table has 12 empty buckets and size 0. |
| HashTables.NewValid | SecurityLogManager2/src/edu/ncsu/csc316/security_log/dictionary/HashTable.java:36-40 | A new table satisfies the table invariant under any hashing. |
| HashTables.Insert | SecurityLogManager2/src/edu/ncsu/csc316/security_log/dictionary/HashTable.java:47-71 | Insert rehashes first exactly when 4n >= 3m. It then puts the value at the front of its bucket and adds one to the size, duplicates included, so the stored multiset gains exactly the value. It keeps every element in its bucket and the load within bounds. |
| HashTables.Rehash | SecurityLogManager2/src/edu/ncsu/csc316/security_log/dictionary/HashTable.java:98-121 | Rehashing doubles the length and keeps the size, the multiset of elements and the invariant. No insertion made while rehashing triggers another rehash. |
| HashTables.InsertBucket | SecurityLogManager2/src/edu/ncsu/csc316/security_log/dictionary/HashTable.java:112-119 | Reinserting one old bucket adds exactly its elements. |
| HashTables.FindIn | SecurityLogManager2/src/edu/ncsu/csc316/security_log/dictionary/HashTable.java:138-148 | The bucket scan returns the first element of the bucket, in list order, that is equal to the value, and returns nothing exactly when none is. |
| HashTables.LookUp | SecurityLogManager2/src/edu/ncsu/csc316/security_log/dictionary/HashTable.java:132-150 | `lookUp` scans only the bucket the value compresses to and returns that bucket's first equal element. The result is a stored element equal to the value, and null exactly when no stored element is equal. |
| HashTables.LookUpFindsFront | SecurityLogManager2/src/edu/ncsu/csc316/security_log/dictionary/HashTable.java:132-150 | Looking up a value just inserted returns that very value. |
| HashTables.Size | SecurityLogManager2/src/edu/ncsu/csc316/security_log/dictionary/HashTable.java:157-159 | `size()` is the number of stored elements. |
| HashTables.Length | SecurityLogManager2/src/edu/ncsu/csc316/security_log/dictionary/HashTable.java:166-168 | `getHashTableLength()` is the number of buckets; on any table reached through `insert` and `rehash` it is at least 12 and large enough that 4·size ≤ 3·length + 3, the load bound the rehash policy keeps. |
| Manager.TotalFacts | SecurityLogManager2/src/edu/ncsu/csc316/security_log/manager/SecurityLogManager.java:86-95 | The window total counts the entries with start <= val <= end, inclusive at both ends. |
| Manager.OutFacts | SecurityLogManager2/src/edu/ncsu/csc316/security_log/manager/SecurityLogManager.java:97-101 | `out` lists, in list order, exactly the entries that are the first in the window with their (action, resource). |
| Manager.FreqCountsFacts | SecurityLogManager2/src/edu/ncsu/csc316/security_log/manager/SecurityLogManager.java:97-105 | Each listed entry's frequency grows by the window count of its key, less one. No other entry's frequency changes. |
| Manager.TallyFacts | SecurityLogManager2/src/edu/ncsu/csc316/security_log/manager/SecurityLogManager.java:89-107 | After any number of entries, the reference tally keeps all of the above, and it changes nothing but frequencies. |
| Manager.SearchAgreesWithFindKey | SecurityLogManager2/src/edu/ncsu/csc316/security_log/manager/SecurityLogManager.java:97-98 | Since `out` holds one entry per key, any search that finds an entry with the key whenever one exists finds the reference one. |
| Manager.LookUpIsFindKey | SecurityLogManager2/src/edu/ncsu/csc316/security_log/manager/SecurityLogManager.java:97 | The hash table lookup finds the entry the reference search of `out` finds. |
| Manager.TallyInsert | SecurityLogManager2/src/edu/ncsu/csc316/security_log/manager/SecurityLogManager.java:100-101 | Inserting an entry with a new key into the table and `out` keeps the loop in step with the reference tally. |
| Manager.TallyEntry | SecurityLogManager2/src/edu/ncsu/csc316/security_log/manager/SecurityLogManager.java:91-106 | One pass of the loop body keeps the loop in step with the reference tally. |
| Manager.TallyWindow | SecurityLogManager2/src/edu/ncsu/csc316/security_log/manager/SecurityLogManager.java:82-107 | The loop over the hash table and the list computes exactly the reference tally: entries, `out` and total. |
| Manager.ByIndexIsComparator | SecurityLogManager2/src/edu/ncsu/csc316/security_log/manager/SecurityLogManager.java:110 | The frequency-rank order on the entries `out` points to is a comparator. |
| Manager.ProfileOrderUnique | SecurityLogManager2/src/edu/ncsu/csc316/security_log/manager/SecurityLogManager.java:110 | The sorted `out` is the same whichever pivots the sort chose, because the rank order ties only equal keys and `out` holds one entry per key. |
| Manager.RenderProfile | SecurityLogManager2/src/edu/ncsu/csc316/security_log/manager/SecurityLogManager.java:113-135 | The output is the header, one line per entry of `out` in list order, and the closing bracket. |
| Manager.GenerateOperationalProfile | SecurityLogManager2/src/edu/ncsu/csc316/security_log/manager/SecurityLogManager.java:60-136 | A malformed start or end time throws. A window with start >= end, start >= max or end <= min gives the no-activity text and changes nothing. Otherwise the text lists the tally in frequency-rank order, and the manager keeps the incremented frequencies. |
| Manager.UserOrderIgnoresFrequency | SecurityLogManager2/src/edu/ncsu/csc316/security_log/manager/SecurityLogManager.java:104 | Incrementing frequencies keeps a list that was sorted by user still sorted. |
| Manager.WindowKeysListedOnce | SecurityLogManager2/src/edu/ncsu/csc316/security_log/manager/SecurityLogManager.java:93-101 | The profile lists every (action, resource) pair of the window exactly once, through an entry in the window. |
| Manager.EmptyWindowProfile | SecurityLogManager2/src/edu/ncsu/csc316/security_log/manager/SecurityLogManager.java:113-135 | A window that passes validation but holds no entry renders "OperationalProfile[\n]", not the no-activity text. |
| Manager.TallyIgnoresFreq | SecurityLogManager2/src/edu/ncsu/csc316/security_log/manager/SecurityLogManager.java:93-101 | Which entries are listed, and the total, do not depend on the frequencies the entries start with. |
| Manager.FreshTallyCounts | SecurityLogManager2/src/edu/ncsu/csc316/security_log/manager/SecurityLogManager.java:97-105 | When every frequency starts at 1, each listed entry reports the window count of its key, and the frequencies add up to the total. |
| Manager.SecondProfileOverCounts | SecurityLogManager2/src/edu/ncsu/csc316/security_log/manager/SecurityLogManager.java:100-104 | A second profile of the same window, over the entries the first one left behind, reports 2c - 1 for a pair seen c times. |
| Manager.SecondProfileExample | SecurityLogManager2/src/edu/ncsu/csc316/security_log/manager/SecurityLogManager.java:100-104 | For two equal entries in the window, the first profile reports frequency 2 and the second reports 3. |
| Manager.GenerateFreshProfile | SecurityLogManager2/src/edu/ncsu/csc316/security_log/manager/SecurityLogManager.java:60-136 | Corrected profile: the same errors and no-activity cases, with every frequency counted from 1 on each call and the manager left unchanged. |
| Manager.OfUserCount | SecurityLogManager2/src/edu/ncsu/csc316/security_log/manager/SecurityLogManager.java:183-193 | The report holds each entry of the user as often as the list does, and no entry of another user. |
| Manager.OfUserEmpty | SecurityLogManager2/src/edu/ncsu/csc316/security_log/manager/SecurityLogManager.java:169-173 | The user has no entries exactly when no entry of the list has that user. |
| Manager.OfUserPermutation | SecurityLogManager2/src/edu/ncsu/csc316/security_log/manager/SecurityLogManager.java:147-150 | Which entries the report holds does not depend on the order of the list. |
| Manager.OfUserOldestFirst | SecurityLogManager2/src/edu/ncsu/csc316/security_log/manager/SecurityLogManager.java:181-194 | On a list sorted by user, the report's entries are in ascending time stamp order. |
| Manager.RenderUserLines | SecurityLogManager2/src/edu/ncsu/csc316/security_log/manager/SecurityLogManager.java:181-194 | The loop writes the header and then one line per entry of the user, in list order. |
| Manager.SortOnce | SecurityLogManager2/src/edu/ncsu/csc316/security_log/manager/SecurityLogManager.java:147-150 | The list is sorted by user only when the flag is clear. Afterwards the flag is set, the list is sorted and a permutation of the old one, and nothing else changes. |
| Manager.ReportFromSorted | SecurityLogManager2/src/edu/ncsu/csc316/security_log/manager/SecurityLogManager.java:155-238 | On a list sorted by user, the binary search with the dummy entry decides correctly between "No activity was recorded." and the user's lines. |
| Manager.GetUserReport | SecurityLogManager2/src/edu/ncsu/csc316/security_log/manager/SecurityLogManager.java:145-241 | The list is sorted by user at most once per manager, and stays a permutation of itself. The report is the header naming the user, then either the no-activity body when the user has no entry or one line per entry of the user in the sorted list's order (oldest first by `Manager.OfUserOldestFirst`), then the closing bracket. |

## Left out

- The `SecurityLogManager` constructor and `SecurityLogIO` read the log
  file. The model is given the entry list and the smallest and largest
  time stamp values instead.
- `SecurityLogUI` is the interactive console loop.
- `compressHash` computes a floating-point golden-ratio product. It is a
  parameter here: any function into [0, m).
- The percentage is rendered with `String.format("%.1f%%")`, in floating
  point. It is a parameter `percent(frequency, total)` here.
- The random pivot of `quickSort` is an arbitrary choice in
  [low + 1, high - 1]. Every property is proved for every choice.
- `LinkedAbstractList` is not part of this model. A bucket is the
  sequence of its elements, and a null bucket is the empty sequence.
- `Comparator` is an interface with no behaviour. A comparator is a
  function `(E, E) -> int`.
- The static `LogEntry.total` is a local counter, returned with the tally.
  It is reset on every call, as the code resets it.
- The `hashCode` cache of an entry stored in the hash table is not kept
  up to date in the table. The table uses the key hash directly, which
  `LogEntries.HashCodeStable` shows is what the cache returns.
- Null arguments to the manager, and null elements inside lists, are not
  modelled. Only the null checks of `add` and `set` are, as
  `Option.None`.
- `addAll` of a list into itself is not modelled. The two arguments are
  separate values.
- JavaStrings.CompareStrings: strings are sequences of Unicode scalar
  values, not of UTF-16 code units. Outside the Basic Multilingual Plane
  the order can differ from Java's `compareTo`, which compares surrogates.
  `UserCompare` and `ARCompare` inherit this.
- JavaStrings.HashString: the hash is taken over scalar values, not UTF-16
  code units. It differs from Java's `hashCode` for characters outside
  the Basic Multilingual Plane, and so can the hash of a `LogEntry`.
- JavaStrings.ParseInt: only the ASCII digits 0-9 are accepted. Java's
  `Integer.parseInt` also accepts other Unicode decimal digits, such as
  the full-width ones, so a time stamp written with them is rejected here
  but parsed by Java.
- Comparators.ARCompare: the Java subtraction of frequencies can
  overflow for frequencies near 2^31. The model subtracts exact integers.
- Counters and sizes (`size`, `n`, `freq`, `LogEntry.total`) are
  unbounded integers. The Java code would overflow past 2^31 - 1 entries.
- ArrayLists.QuickSort: stated only for a comparator. With an
  inconsistent `c`, the Java recursion need not terminate.
- Manager.GenerateOperationalProfile: states that some ordering of `out`
  in frequency-rank order is rendered, not how the sort reached it.
  `Manager.ProfileOrderUnique` shows that there is only one such ordering.

## Findings

| source | as written | input that shows it | evidently intended | confidence | as-written member | corrected member |
|---|---|---|---|---|---|---|
| SecurityLogManager2/src/edu/ncsu/csc316/security_log/manager/SecurityLogManager.java:100-104 | The profile increments the frequency of the shared entries in the log list and never resets it, so the counts of one query carry into the next. | Two entries with equal action and resource inside the window, profiled twice: the first profile reports frequency 2, the second reports 3. | Every profile reports how often each pair occurs in its window. | high; not executed | Manager.SecondProfileExample | Manager.GenerateFreshProfile |
| SecurityLogManager2/src/edu/ncsu/csc316/security_log/list/ArrayList.java:112-115 | The append fast path of `addSorted` stores into `list[size]` without checking capacity. | `addSorted(2)` on the list [1] at capacity 1 throws ArrayIndexOutOfBoundsException. | Grow the array first, as `add` and the third branch of `addSorted` do. | high (only tests call `addSorted`); not executed | ArrayLists.AddSortedOnFullList | ArrayLists.AddSortedGrowing |
