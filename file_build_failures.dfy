/**
 * file_build_failures.py: for each package of a list of build failures,
 * look up the newest tracker bug filed against it. Print the bug when there
 * is one, and open a pre-filled report form when there is none or when the
 * bug is closed.
 */
module FileBuildFailures {
  import opened Wrappers
  import Bugs
  import Numbers

  /** What happens for a package: a printed line, or the report form (`open_bz`) opened for it. */
  datatype Action = Print(line: string) | FileBug(package: string)

  /** `f'{pkg} bz{bz.id} {bz.status}'`. */
  function BugLine(pkg: string, bz: Bugs.Bug): string
  {
    pkg + " bz" + Numbers.IntToString(bz.id) + " " + bz.status
  }

  /** The actions for one package, given the bug the lookup found. */
  function ActionsFor(pkg: string, bz: Option<Bugs.Bug>): seq<Action>
  {
    (if bz.Some? then [Print(BugLine(pkg, bz.value))] else [])
      + (if Bugs.NeedsReport(bz) then [FileBug(pkg)] else [])
  }

  /** The actions of the loop over the packages, in the order of the list. */
  function Transcript(pkgs: seq<string>, bugs: seq<Bugs.Bug>): seq<Action>
  {
    if pkgs == [] then []
    else
      var last := pkgs[|pkgs| - 1];
      Transcript(pkgs[..|pkgs| - 1], bugs) + ActionsFor(last, Bugs.FirstBug(bugs, last))
  }

  /** The loop over one more package adds that package's actions. */
  lemma TranscriptStep(pkgs: seq<string>, bugs: seq<Bugs.Bug>, i: nat, before: seq<Action>)
    requires i < |pkgs|
    ensures before + Transcript(pkgs[..i + 1], bugs)
      == before + Transcript(pkgs[..i], bugs) + ActionsFor(pkgs[i], Bugs.FirstBug(bugs, pkgs[i]))
  {
    assert pkgs[..i + 1][..i] == pkgs[..i];
  }

  /** The browser and the standard output of the script, as a log of what was done. */
  class Session {
    var log: seq<Action>

    constructor ()
      ensures log == []
    {
      log := [];
    }

    /**
     * `for pkg in pkgs`: look the package up in the bugs (sorted by
     * descending id), print the bug when there is one, and open the form
     * when nothing open tracks the failure.
     */
    method FileAll(pkgs: seq<string>, bugs: seq<Bugs.Bug>)
      modifies this
      ensures log == old(log) + Transcript(pkgs, bugs)
    {
      for i := 0 to |pkgs|
        invariant log == old(log) + Transcript(pkgs[..i], bugs)
      {
        var pkg := pkgs[i];
        var bz := Bugs.FindBug(bugs, pkg);
        TranscriptStep(pkgs, bugs, i, old(log));
        if bz.Some? {
          log := log + [Print(BugLine(pkg, bz.value))];
        }
        if bz.None? || bz.value.status == "CLOSED" {
          log := log + [FileBug(pkg)];
        }
      }
      assert pkgs[..|pkgs|] == pkgs;
    }
  }

  /** The packages whose form is opened, in order. */
  function Filed(actions: seq<Action>): seq<string>
  {
    if actions == [] then []
    else
      var last := actions[|actions| - 1];
      Filed(actions[..|actions| - 1]) + (if last.FileBug? then [last.package] else [])
  }

  /** The printed lines, in order. */
  function Printed(actions: seq<Action>): seq<string>
  {
    if actions == [] then []
    else
      var last := actions[|actions| - 1];
      Printed(actions[..|actions| - 1]) + (if last.Print? then [last.line] else [])
  }

  /** What was filed and printed of two runs of actions is that of the first, then that of the second. */
  lemma {:induction false} SplitActions(a: seq<Action>, b: seq<Action>)
    ensures Filed(a + b) == Filed(a) + Filed(b)
    ensures Printed(a + b) == Printed(a) + Printed(b)
    decreases |b|
  {
    if b == [] {
      assert a + b == a;
    } else {
      var front := b[..|b| - 1];
      assert (a + b)[..|a + b| - 1] == a + front;
      SplitActions(a, front);
    }
  }

  /** The packages that need a report: the tracker has no bug for them, or the bug found is closed. */
  function NeedingReport(pkgs: seq<string>, bugs: seq<Bugs.Bug>): seq<string>
  {
    if pkgs == [] then []
    else
      var last := pkgs[|pkgs| - 1];
      NeedingReport(pkgs[..|pkgs| - 1], bugs) + (if Bugs.NeedsReport(Bugs.FirstBug(bugs, last)) then [last] else [])
  }

  /** The status lines of the packages that have a bug. */
  function StatusLines(pkgs: seq<string>, bugs: seq<Bugs.Bug>): seq<string>
  {
    if pkgs == [] then []
    else
      var last := pkgs[|pkgs| - 1];
      var bz := Bugs.FirstBug(bugs, last);
      StatusLines(pkgs[..|pkgs| - 1], bugs) + (if bz.Some? then [BugLine(last, bz.value)] else [])
  }

  /**
   * A form is opened for exactly the packages that need a report, and a
   * line is printed for exactly the packages that have a bug, both in the
   * order of the list.
   */
  lemma {:induction false} TranscriptRule(pkgs: seq<string>, bugs: seq<Bugs.Bug>)
    ensures Filed(Transcript(pkgs, bugs)) == NeedingReport(pkgs, bugs)
    ensures Printed(Transcript(pkgs, bugs)) == StatusLines(pkgs, bugs)
    decreases |pkgs|
  {
    if pkgs != [] {
      var front := pkgs[..|pkgs| - 1];
      var last := pkgs[|pkgs| - 1];
      var bz := Bugs.FirstBug(bugs, last);
      TranscriptRule(front, bugs);
      SplitActions(Transcript(front, bugs), ActionsFor(last, bz));
      ActionsForRule(last, bz);
    }
  }

  /** One package files a report when it needs one, and prints a line when it has a bug. */
  lemma ActionsForRule(pkg: string, bz: Option<Bugs.Bug>)
    ensures Filed(ActionsFor(pkg, bz)) == if Bugs.NeedsReport(bz) then [pkg] else []
    ensures Printed(ActionsFor(pkg, bz)) == if bz.Some? then [BugLine(pkg, bz.value)] else []
  {
    var acts := ActionsFor(pkg, bz);
    if bz.Some? && Bugs.NeedsReport(bz) {
      assert acts == [Print(BugLine(pkg, bz.value)), FileBug(pkg)];
      assert acts[..1] == [Print(BugLine(pkg, bz.value))];
      assert Printed(acts[..1]) == Printed([]) + [BugLine(pkg, bz.value)];
    } else if bz.Some? {
      assert acts == [Print(BugLine(pkg, bz.value))];
    } else {
      assert acts == [FileBug(pkg)];
    }
  }

  /** Which packages need a report, in terms of the list and the tracker's bugs. */
  lemma {:induction false} NeedingReportRule(pkgs: seq<string>, bugs: seq<Bugs.Bug>, pkg: string)
    ensures pkg in NeedingReport(pkgs, bugs) <==> pkg in pkgs && Bugs.NeedsReport(Bugs.FirstBug(bugs, pkg))
    decreases |pkgs|
  {
    if pkgs != [] {
      var front := pkgs[..|pkgs| - 1];
      NeedingReportRule(front, bugs, pkg);
      assert pkgs == front + [pkgs[|pkgs| - 1]];
    }
  }

  /**
   * The whole loop on the tracker's bugs, which the script sorts by
   * descending id: a form is opened for a package of the list exactly when
   * no bug is filed against it, or when the newest one filed against it is
   * closed; a line is printed for the newest bug of each package that has
   * one.
   */
  lemma FilingRule(pkgs: seq<string>, tracker: seq<Bugs.Bug>, pkg: string)
    ensures var bugs := Bugs.SortByDescendingId(tracker);
      var found := Bugs.FirstBug(bugs, pkg);
      && (pkg in Filed(Transcript(pkgs, bugs)) <==> pkg in pkgs && (found.None? || found.value.status == "CLOSED"))
      && (found.None? <==> forall b :: b in tracker ==> b.component != pkg)
      && (found.Some? ==>
            && found.value in tracker && found.value.component == pkg
            && forall b :: b in tracker && b.component == pkg ==> b.id <= found.value.id)
  {
    var bugs := Bugs.SortByDescendingId(tracker);
    TranscriptRule(pkgs, bugs);
    NeedingReportRule(pkgs, bugs, pkg);
    Bugs.FirstBugIsNewest(tracker, pkg);
  }

  /** The script: fetch and sort the tracker's bugs, then work through the list. */
  method Run(pkgs: seq<string>, tracker: seq<Bugs.Bug>) returns (log: seq<Action>)
    ensures log == Transcript(pkgs, Bugs.SortByDescendingId(tracker))
  {
    var session := new Session();
    session.FileAll(pkgs, Bugs.SortByDescendingId(tracker));
    log := session.log;
  }
}
