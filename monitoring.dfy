/**
 * What both monitor scripts read apart from the monitor page. That is the
 * address of one build's results in the Copr backend, built from a fixed
 * base, the zero-padded build id and the package name. It is also the
 * component record of the package database (PDC), which says whether a
 * package is on the critical path.
 */
module Monitoring {
  import opened Wrappers
  import Strings
  import Numbers

  /** `{base}{build:08d}-{package}{tail}`: where Copr keeps what one build produced. */
  function ResultUrl(base: string, build: int, package: string, tail: string): string
  {
    base + Numbers.FormatPadded(build, 8) + "-" + package + tail
  }

  /** Read the build id and the package name back out of a result URL. */
  function ParseResultUrl(base: string, tail: string, url: string): Option<(int, string)>
  {
    if |url| < |base| + |tail| || url[..|base|] != base || url[|url| - |tail|..] != tail then None
    else
      var cut := Strings.Partition(url[|base|..|url| - |tail|], '-');
      if !cut.found then None
      else
        match Numbers.ParseInt(cut.head)
        case None => None
        case Some(build) => Some((build, cut.tail))
  }

  /** The build field of a result URL is at least eight characters wide; for a build id that is not negative the URL gives back the build and the package. */
  lemma ResultUrlRoundTrip(base: string, build: int, package: string, tail: string)
    ensures |Numbers.FormatPadded(build, 8)| >= 8
    ensures build >= 0 ==> ParseResultUrl(base, tail, ResultUrl(base, build, package, tail)) == Some((build, package))
  {
    Numbers.FormatPaddedRoundTrip(build, 8);
    if build >= 0 {
      ResultUrlParses(base, build, package, tail);
    }
  }

  lemma ResultUrlParses(base: string, build: int, package: string, tail: string)
    requires build >= 0
    ensures ParseResultUrl(base, tail, ResultUrl(base, build, package, tail)) == Some((build, package))
  {
    var field := Numbers.FormatPadded(build, 8);
    Numbers.ZeroFillValue(build, 8);
    Numbers.FormatPaddedRoundTrip(build, 8);
    assert '-' !in field by {
      assert Numbers.AllDigits(field);
    }
    var middle := field + "-" + package;
    assert ResultUrl(base, build, package, tail) == base + middle + tail;
    Framed(base, middle, tail);
    Strings.PartitionUnique(middle, '-', field, package);
  }

  /** The parts of `base + middle + tail` are found back by their lengths. */
  lemma Framed(base: string, middle: string, tail: string)
    ensures var url := base + middle + tail;
      && |url| >= |base| + |tail|
      && url[..|base|] == base
      && url[|url| - |tail|..] == tail
      && url[|base|..|url| - |tail|] == middle
  {
    var url := base + middle + tail;
    assert url[..|base|] == base;
    assert url[|url| - |tail|..] == tail;
    assert url[|base|..|url| - |tail|] == middle;
  }

  /** One entry of the PDC `results` list: its `type` and its `critical_path` flag. */
  datatype PdcResult = PdcResult(kind: string, criticalPath: bool)

  /** The first entry of type `rpm`, if there is one. */
  function FirstRpm(results: seq<PdcResult>): Option<PdcResult>
  {
    if results == [] then None
    else if results[0].kind == "rpm" then Some(results[0])
    else FirstRpm(results[1..])
  }

  /** `FirstRpm` finds the earliest `rpm` entry, and nothing exactly when there is none. */
  lemma {:induction false} FirstRpmIsFirst(results: seq<PdcResult>)
    ensures FirstRpm(results).None? <==> forall k :: 0 <= k < |results| ==> results[k].kind != "rpm"
    ensures FirstRpm(results).Some? ==>
      exists k :: 0 <= k < |results| && results[k] == FirstRpm(results).value
        && results[k].kind == "rpm"
        && forall j :: 0 <= j < k ==> results[j].kind != "rpm"
  {
    if results != [] && results[0].kind != "rpm" {
      FirstRpmIsFirst(results[1..]);
      if FirstRpm(results).Some? {
        var k :| 0 <= k < |results[1..]| && results[1..][k] == FirstRpm(results).value
          && results[1..][k].kind == "rpm"
          && forall j :: 0 <= j < k ==> results[1..][j].kind != "rpm";
        assert results[k + 1] == results[1..][k];
        assert forall j :: 1 <= j < k + 1 ==> results[j] == results[1..][j - 1];
      }
      assert forall k :: 1 <= k < |results| ==> results[k] == results[1..][k - 1];
    } else if results != [] {
      assert results[0] == FirstRpm(results).value;
    }
  }

  /**
   * The loop of `is_critpath`: the `critical_path` of the first `rpm`
   * entry, or false when the loop ends without one (the `for ... else`).
   */
  method CritpathOf(results: seq<PdcResult>) returns (critical: bool)
    ensures critical <==> FirstRpm(results).Some? && FirstRpm(results).value.criticalPath
  {
    for i := 0 to |results|
      invariant FirstRpm(results) == FirstRpm(results[i..])
    {
      assert results[i..] == [results[i]] + results[i + 1..];
      if results[i].kind == "rpm" {
        return results[i].criticalPath;
      }
    }
    return false;
  }
}
