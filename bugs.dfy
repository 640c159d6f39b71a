/**
 * Bug records fetched once per run from the bug tracker, their ordering by
 * descending id, and the first-match lookup `bug(bugs, package)` used by
 * file_build_failures.py, monitor_check.py and monitor_check_rpm.py.
 */
module Bugs {
  import opened Wrappers

  /** The fields of a tracker bug that the scripts read. */
  datatype Bug = Bug(id: int, component: string, status: string)

  /** Ids never increase along the list. */
  predicate DescendingIds(bugs: seq<Bug>)
  {
    forall i, j :: 0 <= i < j < |bugs| ==> bugs[i].id >= bugs[j].id
  }

  /** Put `b` in front of the first bug whose id is not larger than its own. */
  function InsertByDescendingId(b: Bug, bugs: seq<Bug>): (r: seq<Bug>)
    ensures multiset(r) == multiset(bugs) + multiset{b}
  {
    if bugs == [] || bugs[0].id <= b.id then [b] + bugs
    else
      assert bugs == [bugs[0]] + bugs[1..];
      [bugs[0]] + InsertByDescendingId(b, bugs[1..])
  }

  /** Inserting into a list ordered by descending id keeps it ordered. */
  lemma {:induction false} InsertKeepsOrder(b: Bug, bugs: seq<Bug>)
    requires DescendingIds(bugs)
    ensures DescendingIds(InsertByDescendingId(b, bugs))
  {
    if !(bugs == [] || bugs[0].id <= b.id) {
      var rest := InsertByDescendingId(b, bugs[1..]);
      InsertKeepsOrder(b, bugs[1..]);
      forall k | 0 <= k < |rest|
        ensures rest[k].id <= bugs[0].id
      {
        assert rest[k] in multiset(rest);
        if rest[k] != b {
          assert rest[k] in multiset(bugs[1..]);
          var m :| 0 <= m < |bugs[1..]| && bugs[1..][m] == rest[k];
          assert bugs[m + 1] == rest[k];
        }
      }
    }
  }

  /** `sorted(bugs, key=lambda b: -b.id)`: the same bugs, highest id first. */
  function SortByDescendingId(bugs: seq<Bug>): (r: seq<Bug>)
    ensures DescendingIds(r)
    ensures multiset(r) == multiset(bugs)
  {
    if bugs == [] then []
    else
      assert bugs == [bugs[0]] + bugs[1..];
      InsertKeepsOrder(bugs[0], SortByDescendingId(bugs[1..]));
      InsertByDescendingId(bugs[0], SortByDescendingId(bugs[1..]))
  }

  /** The first bug of the list filed against `package`, or `None`. */
  function FirstBug(bugs: seq<Bug>, package: string): Option<Bug>
  {
    if bugs == [] then None
    else if bugs[0].component == package then Some(bugs[0])
    else FirstBug(bugs[1..], package)
  }

  /** `bug(bugs, package)`: scan the list and return the first bug whose component is `package`. */
  method FindBug(bugs: seq<Bug>, package: string) returns (b: Option<Bug>)
    ensures b == FirstBug(bugs, package)
  {
    for i := 0 to |bugs|
      invariant FirstBug(bugs, package) == FirstBug(bugs[i..], package)
    {
      assert bugs[i..] == [bugs[i]] + bugs[i + 1..];
      if bugs[i].component == package {
        return Some(bugs[i]);
      }
    }
    return None;
  }

  /** The lookup finds a bug exactly when one is filed against `package`, and then the earliest one in the list. */
  lemma {:induction false} FirstBugIsFirstMatch(bugs: seq<Bug>, package: string)
    ensures FirstBug(bugs, package).None? <==> forall k :: 0 <= k < |bugs| ==> bugs[k].component != package
    ensures FirstBug(bugs, package).Some? ==>
      exists k :: 0 <= k < |bugs| && bugs[k] == FirstBug(bugs, package).value
        && bugs[k].component == package
        && forall j :: 0 <= j < k ==> bugs[j].component != package
  {
    if bugs != [] && bugs[0].component != package {
      FirstBugIsFirstMatch(bugs[1..], package);
      if FirstBug(bugs, package).Some? {
        var k :| 0 <= k < |bugs[1..]| && bugs[1..][k] == FirstBug(bugs, package).value
          && bugs[1..][k].component == package
          && forall j :: 0 <= j < k ==> bugs[1..][j].component != package;
        assert bugs[k + 1] == bugs[1..][k];
        assert forall j :: 1 <= j < k + 1 ==> bugs[j] == bugs[1..][j - 1];
      }
      assert forall k :: 1 <= k < |bugs| ==> bugs[k] == bugs[1..][k - 1];
    } else if bugs != [] {
      assert bugs[0] == FirstBug(bugs, package).value;
    }
  }

  /** Sorting keeps exactly the same bugs. */
  lemma SortKeepsBugs(bugs: seq<Bug>)
    ensures forall b :: b in SortByDescendingId(bugs) <==> b in bugs
  {
    var sorted := SortByDescendingId(bugs);
    assert forall b :: b in bugs <==> b in multiset(bugs);
    assert forall b :: b in sorted <==> b in multiset(sorted);
  }

  /** On a list with descending ids the first match has the highest id of all matches. */
  lemma {:induction false} FirstOfDescendingIsNewest(bugs: seq<Bug>, package: string)
    requires DescendingIds(bugs)
    ensures FirstBug(bugs, package).Some? ==>
      forall b :: b in bugs && b.component == package ==> b.id <= FirstBug(bugs, package).value.id
  {
    if bugs != [] && bugs[0].component != package {
      FirstOfDescendingIsNewest(bugs[1..], package);
      assert forall b :: b in bugs && b != bugs[0] ==> b in bugs[1..];
    }
  }

  /**
   * On the tracker's list sorted by descending id, the lookup returns the
   * newest bug (highest id) filed against `package`, and nothing only when
   * no bug is filed against it.
   */
  lemma FirstBugIsNewest(bugs: seq<Bug>, package: string)
    ensures var found := FirstBug(SortByDescendingId(bugs), package);
      && (found.None? <==> forall b :: b in bugs ==> b.component != package)
      && (found.Some? ==>
            && found.value in bugs
            && found.value.component == package
            && forall b :: b in bugs && b.component == package ==> b.id <= found.value.id)
  {
    var sorted := SortByDescendingId(bugs);
    SortKeepsBugs(bugs);
    FirstBugIsFirstMatch(sorted, package);
    FirstOfDescendingIsNewest(sorted, package);
    assert forall b :: b in sorted ==> exists k :: 0 <= k < |sorted| && sorted[k] == b;
  }

  /** `not bz or bz.status == "CLOSED"`: nothing tracks the failure yet, so a report is wanted. */
  predicate NeedsReport(bz: Option<Bug>)
  {
    bz.None? || bz.value.status == "CLOSED"
  }
}
