/**
 * copr_delete_old_succeeded.py: in a Copr project, delete every succeeded
 * build of a package that the newest succeeded build of that package does
 * not supersede with a higher version. The newest build is kept. Build ids
 * to delete are collected in one shared set. The set is handed to
 * `copr delete-build` in ascending order once it holds `BATCH_SIZE` ids,
 * and once more at the end for whatever is left.
 *
 * The package list and the builds of each package come from `copr`
 * commands and are inputs here; `rpm.labelCompare` is an oracle.
 */
module CoprDeleteOldSucceeded {
  import opened Wrappers
  import Strings
  import Numbers
  import Sorting

  /** How many ids are collected before they are deleted. */
  const BATCH_SIZE := 1000

  // ----- Version strings -----

  /** An `(epoch, version, release)` triple as `rpm.labelCompare` takes it. */
  type Evr = (Option<string>, string, string)

  /** `parse_evr(evr)`: the epoch before the last `:` (none if that is empty), then version and release around the last `-`. */
  function ParseEvr(evr: string): (r: Evr)
    ensures var vr := Strings.RPartition(evr, ':').tail;
      && ':' !in vr
      && (r.0.None? <==> ':' !in evr || Strings.RPartition(evr, ':').head == "")
      && (r.0.Some? ==> evr == r.0.value + ":" + vr)
      && '-' !in r.2
      && ('-' in vr ==> vr == r.1 + "-" + r.2)
      && ('-' !in vr ==> r.1 == "" && r.2 == vr)
  {
    var epoch := Strings.RPartition(evr, ':');
    var vr := Strings.RPartition(epoch.tail, '-');
    (if epoch.head == "" then None else Some(epoch.head), vr.head, vr.tail)
  }

  /** `e:v-r` is read back as `(e, v, r)` when `r` has no `-` and neither `v` nor `r` has a `:`. */
  lemma ParseEvrRoundTrip(e: string, v: string, r: string)
    requires e != ""
    requires ':' !in v && ':' !in r && '-' !in r
    ensures ParseEvr(e + ":" + v + "-" + r) == (Some(e), v, r)
  {
    var vr := v + "-" + r;
    assert ':' !in vr by {
      assert forall k :: 0 <= k < |vr| ==> vr[k] == if k < |v| then v[k] else if k == |v| then '-' else r[k - |v| - 1];
    }
    assert e + ":" + v + "-" + r == e + [':'] + vr;
    Strings.RPartitionUnique(e + [':'] + vr, ':', e, vr);
    assert vr == v + ['-'] + r;
    Strings.RPartitionUnique(vr, '-', v, r);
  }

  /** `drop_dist(version)`: drop the last `.` part of the whole string when the release holds `.fc`. */
  function DropDist(version: string): (r: string)
    ensures Strings.Contains(ParseEvr(version).2, ".fc") ==> r == Strings.RPartition(version, '.').head
    ensures !Strings.Contains(ParseEvr(version).2, ".fc") ==> r == version
  {
    if Strings.Contains(ParseEvr(version).2, ".fc") then
      DotInVersion(version);
      Strings.DropLastField(version, '.');
      var parts := Strings.Split(version, '.');
      Strings.Join(parts[..|parts| - 1], '.')
    else version
  }

  /** A release holding `.fc` puts a `.` into the version string. */
  lemma DotInVersion(version: string)
    requires Strings.Contains(ParseEvr(version).2, ".fc")
    ensures '.' in version
  {
    DotOfContains(ParseEvr(version).2, ".fc");
    var vr := Strings.RPartition(version, ':').tail;
    TailIn(vr, '-', '.');
    TailIn(version, ':', '.');
  }

  /** A text that holds `sub` holds the first character of `sub`. */
  lemma DotOfContains(s: string, sub: string)
    requires sub != [] && Strings.Contains(s, sub)
    ensures sub[0] in s
  {
    var i :| 0 <= i <= |s| && Strings.StartsWith(s[i..], sub);
    assert s[i] == sub[0];
  }

  /** What follows the last `c` of `s` is part of `s`. */
  lemma TailIn(s: string, c: char, x: char)
    requires x in Strings.RPartition(s, c).tail
    ensures x in s
  {
    var cut := Strings.RPartition(s, c);
    if cut.found {
      assert s == cut.head + [c] + cut.tail;
    }
  }

  // ----- The builds of one package -----

  /** One entry of `builds` in `copr get-package --with-all-builds`. */
  datatype Build = Build(id: int, state: string, projectDirname: string, version: string)

  /** The succeeded builds of the project directory `dirname`, in their order. */
  function Succeeded(builds: seq<Build>, dirname: string): (r: seq<Build>)
    ensures forall b :: b in r <==> b in builds && b.state == "succeeded" && b.projectDirname == dirname
  {
    if builds == [] then []
    else
      var rest := Succeeded(builds[1..], dirname);
      var b := builds[0];
      assert forall x :: x in builds <==> x == b || x in builds[1..];
      if b.state == "succeeded" && b.projectDirname == dirname then [b] + rest else rest
  }

  /** The directory of the project: what follows the first `/` of its name (`copr.partition('/')[-1]`). */
  function Dirname(copr: string): string
  {
    Strings.Partition(copr, '/').tail
  }

  /** `dict((id, drop_dist(version)) for ...)`: the version of each id, a later build winning over an earlier one with the same id. */
  function VersionsOf(succeeded: seq<Build>): (versions: map<int, string>)
    ensures forall id :: id in versions <==> exists b :: b in succeeded && b.id == id
  {
    if succeeded == [] then map[]
    else
      var last := succeeded[|succeeded| - 1];
      var before := succeeded[..|succeeded| - 1];
      assert succeeded == before + [last];
      VersionsOf(before)[last.id := DropDist(last.version)]
  }

  /** The version kept for an id is that of the last succeeded build with that id. */
  lemma {:induction false} VersionsOfLastWins(succeeded: seq<Build>, k: nat)
    requires k < |succeeded|
    requires forall j :: k < j < |succeeded| ==> succeeded[j].id != succeeded[k].id
    ensures VersionsOf(succeeded)[succeeded[k].id] == DropDist(succeeded[k].version)
  {
    if k < |succeeded| - 1 {
      var before := succeeded[..|succeeded| - 1];
      assert before[k] == succeeded[k];
      VersionsOfLastWins(before, k);
    }
  }

  /** `sorted(versions.keys())[-1]`: the largest id. */
  function Newest(ids: set<int>): (m: int)
    requires ids != {}
    ensures m in ids && forall id :: id in ids ==> id <= m
  {
    var sorted := Sorting.SortedInts(ids);
    assert sorted != [] by {
      var x :| x in ids;
      assert x in sorted;
    }
    var m := sorted[|sorted| - 1];
    assert forall id :: id in ids ==> id <= m by {
      forall id | id in ids
        ensures id <= m
      {
        var k :| 0 <= k < |sorted| && sorted[k] == id;
        if k < |sorted| - 1 {
          assert Sorting.IntLt(sorted[k], sorted[|sorted| - 1]);
        }
      }
    }
    m
  }

  /** `labelCompare` said the newest version is not newer than this one. */
  predicate NotSuperseded(e: int)
  {
    e == 0 || e == -1
  }

  /** Whether the build `id` goes: the newest version does not exceed its version. */
  function Goes(versions: map<int, string>, newestVersion: string, compare: (Evr, Evr) -> int): int -> bool
  {
    id => id in versions && NotSuperseded(compare(ParseEvr(newestVersion), ParseEvr(versions[id])))
  }

  /** Those of `ids` that go. */
  function Chosen(ids: set<int>, goes: int -> bool): set<int>
  {
    set id | id in ids && goes(id)
  }

  /** The ids `process_package` adds for one package: its succeeded builds other than the newest, whose version the newest does not exceed. */
  function Doomed(builds: seq<Build>, dirname: string, compare: (Evr, Evr) -> int): set<int>
  {
    var versions := VersionsOf(Succeeded(builds, dirname));
    if versions == map[] then {}
    else
      var newest := Newest(versions.Keys);
      Chosen(versions.Keys - {newest}, Goes(versions, versions[newest], compare))
  }

  /** The ids of a package's succeeded builds in the project's directory. */
  lemma SucceededIds(builds: seq<Build>, dirname: string, id: int)
    ensures id in VersionsOf(Succeeded(builds, dirname)) <==>
      exists b :: b in builds && b.state == "succeeded" && b.projectDirname == dirname && b.id == id
  {
    var succeeded := Succeeded(builds, dirname);
    if id in VersionsOf(succeeded) {
      var b :| b in succeeded && b.id == id;
      assert b in builds && b.state == "succeeded" && b.projectDirname == dirname;
    }
    if exists b :: b in builds && b.state == "succeeded" && b.projectDirname == dirname && b.id == id {
      var b :| b in builds && b.state == "succeeded" && b.projectDirname == dirname && b.id == id;
      assert b in succeeded;
    }
  }

  /**
   * An id is deleted for a package exactly when it is the id of a succeeded
   * build in the project's directory, lower than the highest such id, and
   * `labelCompare` of the newest version with its version is 0 or -1. So
   * the newest build is never deleted.
   */
  lemma DoomedRule(builds: seq<Build>, dirname: string, compare: (Evr, Evr) -> int, id: int)
    ensures var versions := VersionsOf(Succeeded(builds, dirname));
      id in Doomed(builds, dirname, compare) <==>
        && id in versions
        && id < Newest(versions.Keys)
        && NotSuperseded(compare(ParseEvr(versions[Newest(versions.Keys)]), ParseEvr(versions[id])))
    ensures var versions := VersionsOf(Succeeded(builds, dirname));
      versions != map[] ==> Newest(versions.Keys) !in Doomed(builds, dirname, compare)
  {
    var versions := VersionsOf(Succeeded(builds, dirname));
    if versions != map[] {
      ChosenRule(versions, compare, id);
    }
  }

  /** The rule of `DoomedRule` for one version dictionary. */
  lemma ChosenRule(versions: map<int, string>, compare: (Evr, Evr) -> int, id: int)
    requires versions != map[]
    ensures var newest := Newest(versions.Keys);
      && (id in Chosen(versions.Keys - {newest}, Goes(versions, versions[newest], compare)) <==>
        id in versions && id < newest && NotSuperseded(compare(ParseEvr(versions[newest]), ParseEvr(versions[id]))))
      && newest !in Chosen(versions.Keys - {newest}, Goes(versions, versions[newest], compare))
  {
    var newest := Newest(versions.Keys);
    assert id in versions && id < newest <==> id in versions.Keys - {newest};
  }

  // ----- The delete-build command -----

  /** `copr delete-build <id> ...`, the ids as decimal strings. */
  function DeleteCommand(ids: seq<int>): (cmd: seq<string>)
    ensures |cmd| == |ids| + 2 && cmd[..2] == ["copr", "delete-build"]
    ensures forall k :: 0 <= k < |ids| ==> Numbers.ParseInt(cmd[k + 2]) == Some(ids[k])
  {
    if ids == [] then ["copr", "delete-build"]
    else
      Numbers.ParseIntOfIntToString(ids[|ids| - 1]);
      DeleteCommand(ids[..|ids| - 1]) + [Numbers.IntToString(ids[|ids| - 1])]
  }

  /** All ids of a sequence of batches. */
  function Flattened(batches: seq<seq<int>>): set<int>
  {
    if batches == [] then {}
    else
      var last := batches[|batches| - 1];
      Flattened(batches[..|batches| - 1]) + set id | id in last
  }

  /** An id is in the batches exactly when one of them holds it. */
  lemma {:induction false} FlattenedHas(batches: seq<seq<int>>, id: int)
    ensures id in Flattened(batches) <==> exists k :: 0 <= k < |batches| && id in batches[k]
  {
    if batches != [] {
      var before := batches[..|batches| - 1];
      FlattenedHas(before, id);
      if id in Flattened(before) {
        var k :| 0 <= k < |before| && id in before[k];
        assert batches[k] == before[k];
      }
      if exists k :: 0 <= k < |batches| && id in batches[k] {
        var k :| 0 <= k < |batches| && id in batches[k];
        if k < |before| {
          assert before[k] == batches[k];
        }
      }
    }
  }

  /** The shared `to_delete` set and the batches already passed to `copr delete-build`. */
  class Pruner {
    var toDelete: set<int>
    var issued: seq<seq<int>>

    /** Between two packages the set never holds a whole batch. */
    ghost predicate Valid()
      reads this
    {
      |toDelete| < BATCH_SIZE
    }

    constructor ()
      ensures Valid()
      ensures toDelete == {} && issued == []
    {
      toDelete := {};
      issued := [];
    }

    /**
     * `delete_builds(to_delete, force=...)`: unless forced, wait for a
     * whole batch; then delete all ids in ascending order and empty the set.
     */
    method DeleteBuilds(force: bool)
      modifies this
      ensures !force && |old(toDelete)| < BATCH_SIZE ==> toDelete == old(toDelete) && issued == old(issued)
      ensures force || |old(toDelete)| >= BATCH_SIZE ==>
        toDelete == {} && issued == old(issued) + [Sorting.SortedInts(old(toDelete))]
      ensures !force ==> Valid()
    {
      if !force && |toDelete| < BATCH_SIZE {
        return;
      }
      var ids := Sorting.SortedInts(toDelete);
      toDelete := {};
      issued := issued + [ids];
    }

    /**
     * `process_package`: add the ids of the old builds of one package, then
     * delete them if a batch is full. A package without succeeded builds
     * adds nothing and deletes nothing.
     */
    method ProcessPackage(builds: seq<Build>, dirname: string, compare: (Evr, Evr) -> int)
      requires Valid()
      modifies this
      ensures Valid()
      ensures var pending := old(toDelete) + Doomed(builds, dirname, compare);
        && (|pending| < BATCH_SIZE ==> toDelete == pending && issued == old(issued))
        && (|pending| >= BATCH_SIZE ==> toDelete == {} && issued == old(issued) + [Sorting.SortedInts(pending)])
    {
      var succeeded := Succeeded(builds, dirname);
      if succeeded == [] {
        assert Doomed(builds, dirname, compare) == {};
        assert toDelete + {} == toDelete;
        return;
      }
      var doomed := DoomedIds(succeeded, builds, dirname, compare);
      toDelete := toDelete + doomed;
      DeleteBuilds(false);
    }
  }

  /** The ids `process_package` adds for the succeeded builds of a package that has some. */
  method DoomedIds(succeeded: seq<Build>, ghost builds: seq<Build>, ghost dirname: string, compare: (Evr, Evr) -> int)
    returns (doomed: set<int>)
    requires succeeded == Succeeded(builds, dirname) && succeeded != []
    ensures doomed == Doomed(builds, dirname, compare)
  {
    var versions := VersionsOf(succeeded);
    assert succeeded[0].id in versions;
    var newest := Newest(versions.Keys);
    doomed := ChooseAll(versions.Keys - {newest}, Goes(versions, versions[newest], compare));
  }

  /**
   * The loop of `process_package` over the builds other than the newest:
   * those that go. The script visits them in the dictionary's insertion
   * order; the model visits them in ascending order, which does not change
   * the set chosen.
   */
  method ChooseAll(ids: set<int>, goes: int -> bool) returns (chosen: set<int>)
    ensures chosen == Chosen(ids, goes)
  {
    var sorted := Sorting.SortedInts(ids);
    chosen := {};
    for i := 0 to |sorted|
      invariant forall id :: id in chosen <==> (exists k :: 0 <= k < i && sorted[k] == id) && goes(id)
    {
      if goes(sorted[i]) {
        chosen := chosen + {sorted[i]};
      }
    }
    assert forall id :: id in chosen <==> id in Chosen(ids, goes);
  }

  /**
   * The ids deleted for the packages, one after another. `details(pkg)` is
   * the build list `copr get-package` gives, or `None` when the command
   * fails; that package then adds nothing.
   */
  function AllDoomed(packages: seq<string>, details: string -> Option<seq<Build>>, dirname: string, compare: (Evr, Evr) -> int): set<int>
  {
    if packages == [] then {}
    else
      var last := packages[|packages| - 1];
      AllDoomed(packages[..|packages| - 1], details, dirname, compare)
        + (match details(last) case Some(builds) => Doomed(builds, dirname, compare) case None => {})
  }

  /** How many packages are processed before the first one whose `copr get-package` fails. */
  function Reached(packages: seq<string>, details: string -> Option<seq<Build>>): (n: nat)
    ensures n <= |packages|
    ensures forall k :: 0 <= k < n ==> details(packages[k]).Some?
    ensures n < |packages| ==> details(packages[n]).None?
  {
    if packages == [] || details(packages[0]).None? then 0
    else 1 + Reached(packages[1..], details)
  }

  /** Every batch is in ascending order and not empty. */
  predicate WellFormedBatches(batches: seq<seq<int>>)
  {
    forall k :: 0 <= k < |batches| ==> Sorting.Increasing(batches[k], Sorting.IntLt) && batches[k] != []
  }

  /** The ids deleted for the first packages and those of one more. */
  lemma AllDoomedStep(packages: seq<string>, i: nat, details: string -> Option<seq<Build>>, dirname: string, compare: (Evr, Evr) -> int)
    requires i < |packages| && details(packages[i]).Some?
    ensures AllDoomed(packages[..i + 1], details, dirname, compare)
      == AllDoomed(packages[..i], details, dirname, compare) + Doomed(details(packages[i]).value, dirname, compare)
  {
    assert packages[..i + 1][..i] == packages[..i];
  }

  /** Every batch so far is whole, and with the ids waiting they are the ids of `total`. */
  predicate Progress(toDelete: set<int>, issued: seq<seq<int>>, total: set<int>)
  {
    && |toDelete| < BATCH_SIZE
    && Flattened(issued) + toDelete == total
    && WellFormedBatches(issued)
    && forall k :: 0 <= k < |issued| ==> |issued[k]| >= BATCH_SIZE
  }

  /**
   * The loop of `main` over the packages, in order, up to the first one
   * whose `copr get-package` fails; `failed` tells whether one did.
   */
  method ProcessPackages(pruner: Pruner, packages: seq<string>, details: string -> Option<seq<Build>>, dirname: string, compare: (Evr, Evr) -> int)
    returns (failed: bool)
    requires pruner.toDelete == {} && pruner.issued == []
    modifies pruner
    ensures failed <==> Reached(packages, details) < |packages|
    ensures Progress(pruner.toDelete, pruner.issued,
      AllDoomed(packages[..Reached(packages, details)], details, dirname, compare))
  {
    failed := false;
    var i := 0;
    ghost var reached := Reached(packages, details);
    while i < |packages|
      invariant i <= reached
      invariant Progress(pruner.toDelete, pruner.issued, AllDoomed(packages[..i], details, dirname, compare))
    {
      var builds := details(packages[i]);
      if builds.None? {
        assert i == reached;
        failed := true;
        return;
      }
      ghost var doomed := Doomed(builds.value, dirname, compare);
      AllDoomedStep(packages, i, details, dirname, compare);
      ProcessOne(pruner, AllDoomed(packages[..i], details, dirname, compare), doomed, builds.value, dirname, compare);
      i := i + 1;
    }
  }

  /** One turn of that loop keeps `Progress`, adding the ids of one package. */
  method ProcessOne(pruner: Pruner, ghost total: set<int>, ghost doomed: set<int>, builds: seq<Build>, dirname: string, compare: (Evr, Evr) -> int)
    requires Progress(pruner.toDelete, pruner.issued, total)
    requires doomed == Doomed(builds, dirname, compare)
    modifies pruner
    ensures Progress(pruner.toDelete, pruner.issued, total + doomed)
  {
    ghost var before := (pruner.toDelete, pruner.issued);
    pruner.ProcessPackage(builds, dirname, compare);
    ProgressStep(before.0, before.1, total, doomed, pruner.toDelete, pruner.issued);
  }

  /** Adding the ids of one package, and deleting them if a batch is full, keeps `Progress`. */
  lemma ProgressStep(toDelete: set<int>, issued: seq<seq<int>>, total: set<int>, doomed: set<int>,
                     toDelete': set<int>, issued': seq<seq<int>>)
    requires Progress(toDelete, issued, total)
    requires |toDelete + doomed| < BATCH_SIZE ==> toDelete' == toDelete + doomed && issued' == issued
    requires |toDelete + doomed| >= BATCH_SIZE ==> toDelete' == {} && issued' == issued + [Sorting.SortedInts(toDelete + doomed)]
    ensures Progress(toDelete', issued', total + doomed)
  {
    var pending := toDelete + doomed;
    if |pending| >= BATCH_SIZE {
      BatchFlushed(issued, pending, total + doomed);
    } else {
      assert Flattened(issued') + toDelete' == total + doomed;
    }
  }

  /** Deleting a whole batch `pending` of ids keeps `Progress` with nothing waiting. */
  lemma BatchFlushed(issued: seq<seq<int>>, pending: set<int>, total: set<int>)
    requires |pending| >= BATCH_SIZE
    requires WellFormedBatches(issued)
    requires forall k :: 0 <= k < |issued| ==> |issued[k]| >= BATCH_SIZE
    requires Flattened(issued) + pending == total
    ensures Progress({}, issued + [Sorting.SortedInts(pending)], total)
  {
    BatchAppended(issued, pending);
    assert Flattened(issued + [Sorting.SortedInts(pending)]) + {} == total;
  }

  /**
   * `main`: list the packages, process them in order (the script runs them
   * concurrently), then, in the `finally`, delete whatever is left. Every id
   * to delete for the packages processed is deleted, in ascending batches,
   * and every batch but the last is whole; this holds as well when a
   * `copr get-package` fails, which stops the processing and makes `failed`
   * true. `listing` is the package list, or `None` when `copr list-packages`
   * fails, and then nothing is deleted.
   */
  method Run(listing: Option<seq<string>>, details: string -> Option<seq<Build>>, copr: string, compare: (Evr, Evr) -> int)
    returns (issued: seq<seq<int>>, failed: bool)
    ensures listing.None? ==> failed && issued == []
    ensures listing.Some? ==>
      && (failed <==> Reached(listing.value, details) < |listing.value|)
      && Flattened(issued) == AllDoomed(listing.value[..Reached(listing.value, details)], details, Dirname(copr), compare)
    ensures WellFormedBatches(issued)
    ensures forall k :: 0 <= k < |issued| - 1 ==> |issued[k]| >= BATCH_SIZE
  {
    if listing.None? {
      return [], true;
    }
    var dirname := Dirname(copr);
    var pruner := new Pruner();
    failed := ProcessPackages(pruner, listing.value, details, dirname, compare);
    if pruner.toDelete != {} {
      ghost var before := pruner.issued;
      ghost var pending := pruner.toDelete;
      pruner.DeleteBuilds(true);
      BatchAppended(before, pending);
    }
    issued := pruner.issued;
  }

  /** Appending the sorted batch of `pending` adds exactly its ids. */
  lemma BatchAppended(before: seq<seq<int>>, pending: set<int>)
    requires pending != {}
    requires WellFormedBatches(before)
    ensures Flattened(before + [Sorting.SortedInts(pending)]) == Flattened(before) + pending
    ensures WellFormedBatches(before + [Sorting.SortedInts(pending)])
    ensures |Sorting.SortedInts(pending)| == |pending|
  {
    var after := before + [Sorting.SortedInts(pending)];
    assert after[..|after| - 1] == before;
    assert Sorting.SortedInts(pending) != [] by {
      var x :| x in pending;
      assert x in Sorting.SortedInts(pending);
    }
  }
}
