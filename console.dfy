/**
 * The coloured output of the monitor scripts: `p(...)` echoes a line and,
 * when it carries a colour (`fg`), adds one to that colour's entry in the
 * global `counter`.
 */
module Console {
  import opened Wrappers
  import Numbers

  /** The `fg` colours the monitor scripts use. */
  datatype Colour = Red | Blue | Yellow | Green | Cyan

  /** One echoed line and its colour, if any. */
  datatype Echo = Echo(text: string, fg: Option<Colour>)

  /** How many of the echoed lines carry colour `c`. */
  function Tally(printed: seq<Echo>, c: Colour): nat
  {
    if printed == [] then 0
    else Tally(printed[..|printed| - 1], c) + (if printed[|printed| - 1].fg == Some(c) then 1 else 0)
  }

  /** When every coloured line has a colour in `explanation`, so has every colour counted. */
  lemma {:induction false} TallyWithin(printed: seq<Echo>, explanation: map<Colour, string>, c: Colour)
    requires forall k :: 0 <= k < |printed| && printed[k].fg.Some? ==> printed[k].fg.value in explanation
    ensures Tally(printed, c) > 0 ==> c in explanation
  {
    if printed != [] {
      var shorter := printed[..|printed| - 1];
      assert forall k :: 0 <= k < |shorter| ==> shorter[k] == printed[k];
      TallyWithin(shorter, explanation, c);
    }
  }

  /** The name a colour has in the scripts (`fg='red'`, ...). */
  function ColourName(c: Colour): string
  {
    match c
    case Red => "red"
    case Blue => "blue"
    case Yellow => "yellow"
    case Green => "green"
    case Cyan => "cyan"
  }

  /** No colour occurs twice. */
  predicate Distinct(cs: seq<Colour>)
  {
    forall i, j :: 0 <= i < j < |cs| ==> cs[i] != cs[j]
  }

  /**
   * The colours of the echoed lines, each once, in the order they first
   * appear: the order in which a `Counter` acquires its keys.
   */
  function Appearance(printed: seq<Echo>): (r: seq<Colour>)
    ensures Distinct(r)
    ensures forall c :: c in r <==> Tally(printed, c) > 0
  {
    if printed == [] then []
    else
      var prev := Appearance(printed[..|printed| - 1]);
      var fg := printed[|printed| - 1].fg;
      if fg.Some? && fg.value !in prev then prev + [fg.value] else prev
  }

  /** Counts never increase along `cs`. */
  predicate ByCountDescending(cs: seq<Colour>, count: map<Colour, nat>)
  {
    forall i, j :: 0 <= i < j < |cs| ==> CountIn(count, cs[j]) <= CountIn(count, cs[i])
  }

  /** A `Counter` lookup: 0 for a key it does not hold. */
  function CountIn(count: map<Colour, nat>, c: Colour): nat
  {
    if c in count then count[c] else 0
  }

  /** Put `c` after every colour whose count is at least its own. */
  function InsertByCount(c: Colour, cs: seq<Colour>, count: map<Colour, nat>): (r: seq<Colour>)
    requires ByCountDescending(cs, count)
    ensures ByCountDescending(r, count)
    ensures |r| == |cs| + 1
    ensures forall x :: x in r <==> x in cs || x == c
  {
    if cs == [] || CountIn(count, cs[0]) < CountIn(count, c) then [c] + cs
    else
      var rest := InsertByCount(c, cs[1..], count);
      assert forall k :: 0 <= k < |rest| ==> CountIn(count, rest[k]) <= CountIn(count, cs[0]) by {
        forall k | 0 <= k < |rest|
          ensures CountIn(count, rest[k]) <= CountIn(count, cs[0])
        {
          assert rest[k] in rest;
          if rest[k] != c {
            var m :| 0 <= m < |cs[1..]| && cs[1..][m] == rest[k];
            assert cs[m + 1] == rest[k];
          }
        }
      }
      [cs[0]] + rest
  }

  /**
   * `most_common()`: the keys sorted by descending count. Python's sort is
   * stable, so keys with equal counts keep the order they were acquired in.
   */
  function MostCommon(keys: seq<Colour>, count: map<Colour, nat>): (r: seq<Colour>)
    ensures ByCountDescending(r, count)
    ensures |r| == |keys|
    ensures forall x :: x in r <==> x in keys
  {
    if keys == [] then []
    else
      assert keys == keys[..|keys| - 1] + [keys[|keys| - 1]];
      InsertByCount(keys[|keys| - 1], MostCommon(keys[..|keys| - 1], count), count)
  }

  /** The summary lines `There are <count> <colour> lines (<explanation>)`, one per colour. */
  function SummaryLines(cs: seq<Colour>, count: map<Colour, nat>, explanation: map<Colour, string>): seq<Echo>
    requires forall k :: 0 <= k < |cs| ==> cs[k] in explanation
  {
    if cs == [] then []
    else
      var c := cs[|cs| - 1];
      SummaryLines(cs[..|cs| - 1], count, explanation) + [SummaryLine(c, count, explanation)]
  }

  /** The summary lines of one more colour end with that colour's line. */
  lemma SummaryLinesStep(cs: seq<Colour>, i: nat, count: map<Colour, nat>, explanation: map<Colour, string>, before: seq<Echo>)
    requires i < |cs|
    requires forall k :: 0 <= k < |cs| ==> cs[k] in explanation
    ensures before + SummaryLines(cs[..i + 1], count, explanation)
      == before + SummaryLines(cs[..i], count, explanation) + [SummaryLine(cs[i], count, explanation)]
  {
    assert cs[..i + 1][..i] == cs[..i];
  }

  /** `There are <count> <colour> lines (<explanation>)`, in that colour. */
  function SummaryLine(c: Colour, count: map<Colour, nat>, explanation: map<Colour, string>): Echo
    requires c in explanation
  {
    Echo("There are " + Numbers.IntToString(CountIn(count, c)) + " " + ColourName(c)
      + " lines (" + explanation[c] + ")", Some(c))
  }

  /** The `Counter` after the echoed lines: one more for a colour at each line that carries it. */
  function CountsOf(printed: seq<Echo>): map<Colour, nat>
  {
    if printed == [] then map[]
    else
      var before := CountsOf(printed[..|printed| - 1]);
      match printed[|printed| - 1].fg
      case None => before
      case Some(c) => before[c := CountIn(before, c) + 1]
  }

  /** The counter of a colour is the number of echoed lines of that colour. */
  lemma {:induction false} CountsOfTally(printed: seq<Echo>, c: Colour)
    ensures CountIn(CountsOf(printed), c) == Tally(printed, c)
  {
    if printed != [] {
      CountsOfTally(printed[..|printed| - 1], c);
    }
  }

  /** Every colour `most_common()` lists has been counted, so it has an explanation. */
  lemma CountedAreExplained(printed: seq<Echo>, explanation: map<Colour, string>)
    requires forall c :: Tally(printed, c) > 0 ==> c in explanation
    ensures var common := MostCommon(Appearance(printed), CountsOf(printed));
      forall k :: 0 <= k < |common| ==> common[k] in explanation && CountIn(CountsOf(printed), common[k]) > 0
  {
    var common := MostCommon(Appearance(printed), CountsOf(printed));
    forall k | 0 <= k < |common|
      ensures common[k] in explanation && CountIn(CountsOf(printed), common[k]) > 0
    {
      assert common[k] in common;
      CountsOfTally(printed, common[k]);
    }
  }

  /**
   * The summary `main` ends with, for the lines printed so far: one line
   * per counted colour, most common first.
   */
  function Summary(printed: seq<Echo>, explanation: map<Colour, string>): seq<Echo>
    requires forall c :: Tally(printed, c) > 0 ==> c in explanation
  {
    CountedAreExplained(printed, explanation);
    SummaryLines(MostCommon(Appearance(printed), CountsOf(printed)), CountsOf(printed), explanation)
  }

  /** The global `Counter` and what `secho` has printed so far. */
  class Terminal {
    var counter: map<Colour, nat>
    var printed: seq<Echo>

    /** The counter is the count of the echoed lines by colour. */
    ghost predicate Valid()
      reads this
    {
      counter == CountsOf(printed)
    }

    /** `counter[c]`: a `Counter` reads 0 for a colour it has not seen. */
    function Count(c: Colour): nat
      reads this
    {
      CountIn(counter, c)
    }

    constructor ()
      ensures Valid()
      ensures counter == map[] && printed == []
    {
      counter := map[];
      printed := [];
    }

    /** `p(text, fg=...)`: echo the line; count it under its colour when it has one. */
    method P(text: string, fg: Option<Colour>)
      requires Valid()
      modifies this
      ensures Valid()
      ensures printed == old(printed) + [Echo(text, fg)]
      ensures fg.Some? ==> counter == old(counter)[fg.value := old(Count(fg.value)) + 1]
      ensures fg.None? ==> counter == old(counter)
    {
      if fg.Some? {
        counter := counter[fg.value := Count(fg.value) + 1];
      }
      printed := printed + [Echo(text, fg)];
      assert printed[..|printed| - 1] == old(printed);
    }

    /**
     * The end of `main`: an empty line, then one line per colour counted so
     * far, most common first. The explanation of each is looked up in
     * `explanation`, which must hold every colour counted.
     */
    method Summarize(explanation: map<Colour, string>)
      requires Valid()
      requires forall c :: Tally(printed, c) > 0 ==> c in explanation
      modifies this
      ensures Valid()
      ensures printed == old(printed) + [Echo("", None)] + Summary(old(printed), explanation)
    {
      var earlier := printed;
      P("", None);
      assert printed[..|printed| - 1] == earlier;
      var count := counter;
      var common := MostCommon(Appearance(earlier), count);
      CountedAreExplained(earlier, explanation);
      PrintSummaryLines(common, count, explanation);
    }

    /** The loop of the summary: one `p` call per colour of `common`. */
    method PrintSummaryLines(common: seq<Colour>, count: map<Colour, nat>, explanation: map<Colour, string>)
      requires Valid()
      requires forall k :: 0 <= k < |common| ==> common[k] in explanation
      modifies this
      ensures Valid()
      ensures printed == old(printed) + SummaryLines(common, count, explanation)
    {
      for i := 0 to |common|
        invariant Valid()
        invariant forall k :: 0 <= k < |common[..i]| ==> common[..i][k] in explanation
        invariant printed == old(printed) + SummaryLines(common[..i], count, explanation)
      {
        var line := SummaryLine(common[i], count, explanation);
        SummaryLinesStep(common, i, count, explanation, old(printed));
        P(line.text, line.fg);
      }
      assert common[..|common|] == common;
    }
  }
}
