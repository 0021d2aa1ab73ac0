/** The three orders the reports use, each a pure three-way comparison of
    two log entries that falls through to the next field on a tie. */
module Comparators {
  import opened JavaStrings
  import opened Orders
  import TimeStamps
  import opened LogEntries

  /** `ARComparator`: higher frequency first, then action, then resource. */
  function ARCompare(e1: LogEntry, e2: LogEntry): (r: int)
    ensures e1.freq != e2.freq ==> (r > 0 <==> e1.freq < e2.freq) && r != 0
    ensures e1.freq == e2.freq && e1.action != e2.action ==>
              Sign(r) == Sign(CompareStrings(e1.action, e2.action))
    ensures e1.freq == e2.freq && e1.action == e2.action ==>
              Sign(r) == Sign(CompareStrings(e1.resource, e2.resource))
    ensures r == 0 <==> e1.freq == e2.freq && e1.action == e2.action && e1.resource == e2.resource
  {
    if e1.freq != e2.freq then e2.freq - e1.freq
    else if e1.action != e2.action then CompareStrings(e1.action, e2.action)
    else CompareStrings(e1.resource, e2.resource)
  }

  /** `UserComparator`: user, then time stamp, then action, then resource. */
  function UserCompare(e1: LogEntry, e2: LogEntry): (r: int)
    ensures e1.user != e2.user ==> Sign(r) == Sign(CompareStrings(e1.user, e2.user))
    ensures e1.user == e2.user && e1.timeStamp.val != e2.timeStamp.val ==>
              (r < 0 <==> e1.timeStamp.val < e2.timeStamp.val) && r != 0
    ensures e1.user == e2.user && e1.timeStamp.val == e2.timeStamp.val && e1.action != e2.action ==>
              Sign(r) == Sign(CompareStrings(e1.action, e2.action))
    ensures e1.user == e2.user && e1.timeStamp.val == e2.timeStamp.val && e1.action == e2.action ==>
              Sign(r) == Sign(CompareStrings(e1.resource, e2.resource))
    ensures r == 0 <==> && e1.user == e2.user && e1.timeStamp.val == e2.timeStamp.val
                        && e1.action == e2.action && e1.resource == e2.resource
  {
    if e1.user != e2.user then CompareStrings(e1.user, e2.user)
    else if TimeStamps.CompareTo(e1.timeStamp, e2.timeStamp) != 0 then
      TimeStamps.CompareTo(e1.timeStamp, e2.timeStamp)
    else if e1.action != e2.action then CompareStrings(e1.action, e2.action)
    else CompareStrings(e1.resource, e2.resource)
  }

  /** `UserOnlyComparator`: the user alone. */
  function UserOnlyCompare(e1: LogEntry, e2: LogEntry): (r: int)
    ensures r == 0 <==> e1.user == e2.user
  {
    CompareStrings(e1.user, e2.user)
  }

  // ---------------------------------------------------------------------
  // Each order obeys the comparator contract.

  lemma StringsAntisymmetric(a: string, b: string)
    ensures Sign(CompareStrings(a, b)) == -Sign(CompareStrings(b, a))
  {
    CompareStringsAntisymmetric(a, b);
  }

  lemma ARCompareIsComparator()
    ensures IsComparator(ARCompare)
  {
    forall a, b
      ensures Sign(ARCompare(a, b)) == -Sign(ARCompare(b, a))
    {
      StringsAntisymmetric(a.action, b.action);
      StringsAntisymmetric(a.resource, b.resource);
    }
    forall a, b, d | ARCompare(a, b) <= 0 && ARCompare(b, d) <= 0
      ensures ARCompare(a, d) <= 0
    {
      if a.freq == b.freq == d.freq && a.action == b.action == d.action {
        CompareStringsTransitive(a.resource, b.resource, d.resource);
      } else if a.freq == b.freq == d.freq {
        if a.action == b.action || b.action == d.action {
        } else {
          CompareStringsTransitive(a.action, b.action, d.action);
        }
      }
    }
  }

  lemma UserCompareIsComparator()
    ensures IsComparator(UserCompare)
  {
    forall a, b
      ensures Sign(UserCompare(a, b)) == -Sign(UserCompare(b, a))
    {
      StringsAntisymmetric(a.user, b.user);
      StringsAntisymmetric(a.action, b.action);
      StringsAntisymmetric(a.resource, b.resource);
    }
    forall a, b, d | UserCompare(a, b) <= 0 && UserCompare(b, d) <= 0
      ensures UserCompare(a, d) <= 0
    {
      if a.user != b.user || b.user != d.user {
        if a.user != b.user && b.user != d.user {
          CompareStringsTransitive(a.user, b.user, d.user);
        }
      } else if a.timeStamp.val != b.timeStamp.val || b.timeStamp.val != d.timeStamp.val {
      } else if a.action != b.action || b.action != d.action {
        if a.action != b.action && b.action != d.action {
          CompareStringsTransitive(a.action, b.action, d.action);
        }
      } else {
        CompareStringsTransitive(a.resource, b.resource, d.resource);
      }
    }
  }

  lemma UserOnlyCompareIsComparator()
    ensures IsComparator(UserOnlyCompare)
  {
    forall a, b
      ensures Sign(UserOnlyCompare(a, b)) == -Sign(UserOnlyCompare(b, a))
    {
      StringsAntisymmetric(a.user, b.user);
    }
    forall a, b, d | UserOnlyCompare(a, b) <= 0 && UserOnlyCompare(b, d) <= 0
      ensures UserOnlyCompare(a, d) <= 0
    {
      CompareStringsTransitive(a.user, b.user, d.user);
    }
  }

  // ---------------------------------------------------------------------
  // How the user orders relate.

  /** The user-only order looks at nothing but the two users, so a dummy
      entry carrying only the wanted user is a valid search key. */
  lemma UserOnlyDependsOnUsers(e1: LogEntry, e2: LogEntry, f1: LogEntry, f2: LogEntry)
    requires e1.user == f1.user && e2.user == f2.user
    ensures UserOnlyCompare(e1, e2) == UserOnlyCompare(f1, f2)
  {
  }

  /** The full user order refines the user-only order. */
  lemma UserCompareRefinesUserOnly(e1: LogEntry, e2: LogEntry)
    ensures UserCompare(e1, e2) <= 0 ==> UserOnlyCompare(e1, e2) <= 0
    ensures e1.user != e2.user ==> Sign(UserCompare(e1, e2)) == Sign(UserOnlyCompare(e1, e2))
  {
  }

  /** A list sorted by the full user order is sorted by user alone, which is
      what lets the user report binary-search it with the user-only order. */
  lemma SortedByUserIsSortedByUserOnly(s: seq<LogEntry>)
    requires SortedBy(UserCompare, s)
    ensures SortedBy(UserOnlyCompare, s)
  {
    forall i, j | 0 <= i < j < |s|
      ensures UserOnlyCompare(s[i], s[j]) <= 0
    {
      UserCompareRefinesUserOnly(s[i], s[j]);
    }
  }

  /** Within one user, the full user order is ascending time stamp order. */
  lemma SortedByUserOrdersTimeStamps(s: seq<LogEntry>, i: int, j: int)
    requires SortedBy(UserCompare, s)
    requires 0 <= i < j < |s| && s[i].user == s[j].user
    ensures s[i].timeStamp.val <= s[j].timeStamp.val
  {
    assert UserCompare(s[i], s[j]) <= 0;
  }
}
