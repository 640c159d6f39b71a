/**
 * remove_closed.py: the lines of the original list that are not in the
 * closed list, written sorted, one per line, with a final newline.
 * The two files arrive as the sets of their lines.
 */
module RemoveClosed {
  import Strings
  import Sorting

  /** `sorted(originals - closeds)`: each remaining line once, ascending. */
  function Remaining(originals: set<string>, closeds: set<string>): (r: seq<string>)
    ensures Sorting.Increasing(r, Strings.StrLt)
    ensures forall x :: x in r <==> x in originals && x !in closeds
    ensures forall i, j :: 0 <= i < j < |r| ==> r[i] != r[j]
  {
    var r := Sorting.SortedStrings(originals - closeds);
    forall i, j | 0 <= i < j < |r|
      ensures r[i] != r[j]
    {
      Strings.StrLtIrreflexive(r[i]);
    }
    r
  }

  /** The text written to the new file: the remaining lines joined by newlines, then a newline. */
  function Output(originals: set<string>, closeds: set<string>): string
  {
    Strings.Join(Remaining(originals, closeds), '\n') + "\n"
  }

  /**
   * The output always ends with a newline. It is exactly `"\n"` when no line
   * remains, or when the only line remaining is the empty one. Otherwise,
   * for lines without a newline of their own (which is what `splitlines`
   * gives), the text before the final newline splits back into the
   * remaining lines: each original line not closed, once, in ascending order.
   */
  lemma OutputLines(originals: set<string>, closeds: set<string>)
    ensures var out := Output(originals, closeds);
      && out != [] && out[|out| - 1] == '\n'
      && (originals - closeds <= {""} <==> out == "\n")
    ensures var out := Output(originals, closeds);
      (forall x :: x in originals ==> '\n' !in x) && originals - closeds != {} ==>
        Strings.Split(out[..|out| - 1], '\n') == Remaining(originals, closeds)
  {
    var r := Remaining(originals, closeds);
    var out := Output(originals, closeds);
    assert out[..|out| - 1] == Strings.Join(r, '\n');
    if originals - closeds <= {""} {
      assert |r| <= 1;
    }
    if originals - closeds != {} {
      var x :| x in originals - closeds;
      assert x in r;
      if out == "\n" {
        assert Strings.Join(r, '\n') == "";
        JoinNotEmpty(r);
        forall y | y in originals - closeds
          ensures y == ""
        {
          assert y in r;
        }
      }
      if forall y :: y in originals ==> '\n' !in y {
        forall k | 0 <= k < |r|
          ensures '\n' !in r[k]
        {
          assert r[k] in r;
        }
        Strings.SplitJoin(r, '\n');
      }
    }
  }

  /** Joining two or more lines puts a separator in; joining one line gives it back. */
  lemma JoinNotEmpty(parts: seq<string>)
    requires |parts| >= 1
    ensures Strings.Join(parts, '\n') == "" ==> |parts| == 1 && parts[0] == ""
  {
    if |parts| > 1 {
      Strings.JoinAt(parts, '\n', 1);
    }
  }
}
