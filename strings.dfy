/**
 * The handful of Python `str` operations the scripts are built from, for
 * single-character separators: `split(sep)`, `sep.join(parts)`,
 * `partition(sep)`, `rpartition(sep)`, `rsplit(sep, 2)`, `sub in s`,
 * `s.count(sub)`, `s.startswith(p)`, the first field of `s.split()`,
 * and `<` on strings (code-point order).
 */
module Strings {
  import opened Wrappers

  /** First index of `c` in `s`, or `|s|` when `c` does not occur. */
  function IndexOf(s: string, c: char): (i: nat)
    ensures i <= |s|
    ensures i < |s| ==> s[i] == c
    ensures forall j :: 0 <= j < i ==> s[j] != c
  {
    if s == [] then 0 else if s[0] == c then 0 else 1 + IndexOf(s[1..], c)
  }

  /** Last index of `c` in `s`, or -1 when `c` does not occur. */
  function LastIndexOf(s: string, c: char): (i: int)
    ensures -1 <= i < |s|
    ensures i >= 0 ==> s[i] == c
    ensures forall j :: i < j < |s| ==> s[j] != c
  {
    if s == [] then -1
    else if s[|s| - 1] == c then |s| - 1
    else LastIndexOf(s[..|s| - 1], c)
  }

  /** The three parts `(head, sep, tail)` of Python's `partition`/`rpartition`; `found` says whether `sep` was non-empty. */
  datatype Cut = Cut(head: string, found: bool, tail: string)

  /** `s.partition(c)`: split at the first `c`; without one, `(s, '', '')`. */
  function Partition(s: string, c: char): (r: Cut)
    ensures r.found <==> c in s
    ensures r.found ==> s == r.head + [c] + r.tail && c !in r.head
    ensures !r.found ==> r.head == s && r.tail == ""
  {
    var i := IndexOf(s, c);
    if i < |s| then
      assert s == s[..i] + [c] + s[i + 1..];
      Cut(s[..i], true, s[i + 1..])
    else Cut(s, false, "")
  }

  /** `s.rpartition(c)`: split at the last `c`; without one, `('', '', s)`. */
  function RPartition(s: string, c: char): (r: Cut)
    ensures r.found <==> c in s
    ensures r.found ==> s == r.head + [c] + r.tail && c !in r.tail
    ensures !r.found ==> r.head == "" && r.tail == s
  {
    var i := LastIndexOf(s, c);
    if i >= 0 then
      assert s == s[..i] + [c] + s[i + 1..];
      Cut(s[..i], true, s[i + 1..])
    else Cut("", false, s)
  }

  /** The split at the first `c` is the only one whose head is free of `c`. */
  lemma PartitionUnique(s: string, c: char, h: string, t: string)
    requires s == h + [c] + t && c !in h
    ensures Partition(s, c) == Cut(h, true, t)
  {
    var r := Partition(s, c);
    assert s[|h|] == c;
    assert |r.head| == |h|;
    assert r.head == s[..|h|] == h;
    assert r.tail == s[|h| + 1..] == t;
  }

  /** The split at the last `c` is the only one whose tail is free of `c`. */
  lemma RPartitionUnique(s: string, c: char, h: string, t: string)
    requires s == h + [c] + t && c !in t
    ensures RPartition(s, c) == Cut(h, true, t)
  {
    var r := RPartition(s, c);
    assert s[|h|] == c;
    assert |r.head| == |h|;
    assert r.head == s[..|h|] == h;
    assert r.tail == s[|h| + 1..] == t;
  }

  /** `c.join(parts)` (Python's `''.join([])` is the empty string). */
  function Join(parts: seq<string>, c: char): string
  {
    if |parts| == 0 then ""
    else if |parts| == 1 then parts[0]
    else parts[0] + [c] + Join(parts[1..], c)
  }

  /** `sep.join(parts)` for a separator of any length. */
  function JoinWith(parts: seq<string>, sep: string): string
  {
    if |parts| == 0 then ""
    else if |parts| == 1 then parts[0]
    else parts[0] + sep + JoinWith(parts[1..], sep)
  }

  /** A character of one of the parts is a character of their join. */
  lemma {:induction false} InJoin(parts: seq<string>, c: char, k: nat, x: char)
    requires k < |parts| && x in parts[k]
    ensures x in Join(parts, c)
  {
    if k > 0 {
      InJoin(parts[1..], c, k - 1, x);
    }
  }

  /** `s.split(c)`: never empty, no part holds `c`, and joining the parts with `c` gives `s` back. */
  function Split(s: string, c: char): (parts: seq<string>)
    ensures |parts| >= 1
    ensures forall k :: 0 <= k < |parts| ==> c !in parts[k]
    ensures Join(parts, c) == s
    decreases |s|
  {
    var i := IndexOf(s, c);
    if i == |s| then [s]
    else
      var rest := Split(s[i + 1..], c);
      assert s == s[..i] + [c] + s[i + 1..];
      [s[..i]] + rest
  }

  /** Splitting a join of `c`-free parts gives the parts back. */
  lemma {:induction false} SplitJoin(parts: seq<string>, c: char)
    requires |parts| >= 1
    requires forall k :: 0 <= k < |parts| ==> c !in parts[k]
    ensures Split(Join(parts, c), c) == parts
    decreases |parts|
  {
    if |parts| > 1 {
      var s := Join(parts, c);
      var rest := Join(parts[1..], c);
      assert s == parts[0] + [c] + rest;
      PartitionUnique(s, c, parts[0], rest);
      assert IndexOf(s, c) == |parts[0]|;
      assert s[..|parts[0]|] == parts[0];
      assert s[|parts[0]| + 1..] == rest;
      SplitJoin(parts[1..], c);
      assert Split(s, c) == [parts[0]] + parts[1..];
    }
  }

  /** Joining is associative at any inner cut point. */
  lemma {:induction false} JoinAt(parts: seq<string>, c: char, m: nat)
    requires 0 < m < |parts|
    ensures Join(parts, c) == Join(parts[..m], c) + [c] + Join(parts[m..], c)
    decreases m
  {
    if m > 1 {
      JoinAt(parts[1..], c, m - 1);
      assert parts[1..][..m - 1] == parts[1..m];
      assert parts[1..][m - 1..] == parts[m..];
      assert parts[..m][1..] == parts[1..m];
    } else {
      assert parts[..1] == [parts[0]];
      assert parts[1..] == parts[m..];
    }
  }

  /** `s` contains `c` exactly when it splits into more than one part. */
  lemma SplitCount(s: string, c: char)
    ensures c in s <==> |Split(s, c)| > 1
  {
    var ps := Split(s, c);
    if |ps| > 1 {
      JoinAt(ps, c, 1);
      assert s[|Join(ps[..1], c)|] == c;
    }
  }

  /** Joining all but the last `k` parts of a split gives the text before the `k`-th `c` from the right. */
  lemma DropLastFields(s: string, c: char, k: nat)
    requires 0 < k < |Split(s, c)|
    ensures var ps := Split(s, c);
      s == Join(ps[..|ps| - k], c) + [c] + Join(ps[|ps| - k..], c)
  {
    var ps := Split(s, c);
    JoinAt(ps, c, |ps| - k);
  }

  /** `'.'.join(s.split('.')[:-1])` is the text before the last `c` when there is one. */
  lemma DropLastField(s: string, c: char)
    requires c in s
    ensures var ps := Split(s, c);
      |ps| > 1 && Join(ps[..|ps| - 1], c) == RPartition(s, c).head
  {
    var ps := Split(s, c);
    SplitCount(s, c);
    var n := |ps|;
    JoinAt(ps, c, n - 1);
    assert ps[n - 1..] == [ps[n - 1]];
    var h := Join(ps[..n - 1], c);
    assert s == h + [c] + ps[n - 1];
    RPartitionUnique(s, c, h, ps[n - 1]);
  }

  /** `s.rsplit(c, 2)` when it yields three parts; `None` when `s` has fewer than two `c`s. */
  function RSplitTwo(s: string, c: char): (r: Option<(string, string, string)>)
    ensures r.Some? ==> s == r.value.0 + [c] + r.value.1 + [c] + r.value.2
    ensures r.Some? ==> c !in r.value.1 && c !in r.value.2
    ensures r.None? <==> (c !in s || c !in RPartition(s, c).head)
  {
    var last := RPartition(s, c);
    if !last.found then None
    else
      var second := RPartition(last.head, c);
      if !second.found then None
      else Some((second.head, second.tail, last.tail))
  }

  /** `rsplit(c, 2)` of `a c b c d` with `b` and `d` free of `c` is `(a, b, d)`. */
  lemma RSplitTwoOf(a: string, b: string, d: string, c: char)
    requires c !in b && c !in d
    ensures RSplitTwo(a + [c] + b + [c] + d, c) == Some((a, b, d))
  {
    var s := a + [c] + b + [c] + d;
    RPartitionUnique(s, c, a + [c] + b, d);
    RPartitionUnique(a + [c] + b, c, a, b);
  }

  /** `p` is a prefix of `s` (`s.startswith(p)`). */
  predicate StartsWith(s: string, p: string)
  {
    |p| <= |s| && s[..|p|] == p
  }

  /** `sub in s`: some position of `s` starts an occurrence of `sub`. */
  function Contains(s: string, sub: string): (r: bool)
    ensures r <==> exists i :: 0 <= i <= |s| && StartsWith(s[i..], sub)
  {
    if StartsWith(s, sub) then
      assert StartsWith(s[0..], sub);
      true
    else if s == [] then false
    else
      ContainsShift(s, sub);
      Contains(s[1..], sub)
  }

  /** An occurrence that is not at the front of `s` is an occurrence in `s[1..]`. */
  lemma ContainsShift(s: string, sub: string)
    requires s != [] && !StartsWith(s, sub)
    ensures (exists i :: 0 <= i <= |s| && StartsWith(s[i..], sub))
        <==> (exists i :: 0 <= i <= |s| - 1 && StartsWith(s[1..][i..], sub))
  {
    if exists i :: 0 <= i <= |s| && StartsWith(s[i..], sub) {
      var i :| 0 <= i <= |s| && StartsWith(s[i..], sub);
      assert i != 0;
      assert s[1..][i - 1..] == s[i..];
    }
    if exists i :: 0 <= i <= |s| - 1 && StartsWith(s[1..][i..], sub) {
      var i :| 0 <= i <= |s| - 1 && StartsWith(s[1..][i..], sub);
      assert s[1..][i..] == s[i + 1..];
    }
  }

  /** `s.count(sub)`: non-overlapping occurrences, scanned from the left. */
  function Count(s: string, sub: string): nat
    decreases |s|
  {
    if sub == [] then |s| + 1
    else if |s| < |sub| then 0
    else if StartsWith(s, sub) then 1 + Count(s[|sub|..], sub)
    else Count(s[1..], sub)
  }

  /** A non-empty `sub` is counted at least once exactly when it occurs. */
  lemma {:induction false} CountPositive(s: string, sub: string)
    requires sub != []
    ensures Count(s, sub) > 0 <==> Contains(s, sub)
    decreases |s|
  {
    if |s| >= |sub| && !StartsWith(s, sub) {
      CountPositive(s[1..], sub);
    }
  }

  /** Python's `str.isspace()` for one character. */
  predicate IsSpace(ch: char)
  {
    ch == ' ' || ('\t' <= ch <= '\r') || ('\U{1C}' <= ch <= '\U{1F}')
    || ch == '\U{85}' || ch == '\U{A0}' || ch == '\U{1680}'
    || ('\U{2000}' <= ch <= '\U{200A}') || ch == '\U{2028}' || ch == '\U{2029}'
    || ch == '\U{202F}' || ch == '\U{205F}' || ch == '\U{3000}'
  }

  /** `s.split()[0]`: the first maximal run of non-space characters; `None` (an `IndexError`) when `s` is all space. */
  function FirstField(s: string): (r: Option<string>)
    ensures r.None? <==> forall i :: 0 <= i < |s| ==> IsSpace(s[i])
    ensures r.Some? ==> r.value != [] && forall i :: 0 <= i < |r.value| ==> !IsSpace(r.value[i])
  {
    if s == [] then None
    else if IsSpace(s[0]) then FirstField(s[1..])
    else Some(Word(s))
  }

  /** The number of space characters at the start of `s`. */
  function Blanks(s: string): (n: nat)
    ensures n <= |s|
    ensures forall i :: 0 <= i < n ==> IsSpace(s[i])
    ensures n == |s| || !IsSpace(s[n])
  {
    if s == [] || !IsSpace(s[0]) then 0 else 1 + Blanks(s[1..])
  }

  /**
   * The field `s.split()[0]` is the word that starts after the leading
   * spaces, and there is none exactly when only spaces are left.
   */
  lemma {:induction false} FirstFieldAfterBlanks(s: string)
    ensures FirstField(s) == if Blanks(s) == |s| then None else Some(Word(s[Blanks(s)..]))
  {
    if s != [] && IsSpace(s[0]) {
      FirstFieldAfterBlanks(s[1..]);
      assert s[1..][Blanks(s[1..])..] == s[Blanks(s)..];
    }
  }

  /** The number of space characters at the end of `s`. */
  function TrailingBlanks(s: string): (n: nat)
    ensures n <= |s|
    ensures forall i :: |s| - n <= i < |s| ==> IsSpace(s[i])
    ensures n == |s| || !IsSpace(s[|s| - n - 1])
  {
    if s == [] || !IsSpace(s[|s| - 1]) then 0 else 1 + TrailingBlanks(s[..|s| - 1])
  }

  /**
   * `s.strip()`: `s` without its leading and trailing space. The result is
   * a slice of `s` with only space around it, and it neither starts nor
   * ends with a space.
   */
  function Strip(s: string): (r: string)
    ensures r == [] || (!IsSpace(r[0]) && !IsSpace(r[|r| - 1]))
    ensures exists i :: SpaceAround(s, i, r)
  {
    var t := s[Blanks(s)..];
    var r := t[..|t| - TrailingBlanks(t)];
    assert s[Blanks(s)..Blanks(s) + |r|] == r;
    assert SpaceAround(s, Blanks(s), r);
    r
  }

  /** `r` sits at position `i` of `s`, with nothing but space before and after it. */
  predicate SpaceAround(s: string, i: int, r: string)
  {
    && 0 <= i && i + |r| <= |s| && s[i..i + |r|] == r
    && (forall k :: 0 <= k < i ==> IsSpace(s[k]))
    && (forall k :: i + |r| <= k < |s| ==> IsSpace(s[k]))
  }

  /** Stripping twice strips nothing more. */
  lemma StripIdempotent(s: string)
    ensures Strip(Strip(s)) == Strip(s)
  {
    var r := Strip(s);
    if r != [] {
      assert Blanks(r) == 0;
      assert r[0..] == r;
      assert TrailingBlanks(r) == 0;
      assert r[..|r| - 0] == r;
    }
  }

  /** `f'{s: <width}'`: `s`, padded on the right with spaces to `width` characters. */
  function LeftJustify(s: string, width: nat): (r: string)
    ensures |r| == if |s| < width then width else |s|
    ensures StartsWith(r, s)
    ensures forall i :: |s| <= i < |r| ==> r[i] == ' '
    decreases width - |s|
  {
    if |s| < width then LeftJustify(s + " ", width) else s
  }

  /** The longest prefix of `s` without spaces. */
  function Word(s: string): (w: string)
    ensures StartsWith(s, w)
    ensures forall i :: 0 <= i < |w| ==> !IsSpace(w[i])
    ensures |w| == |s| || IsSpace(s[|w|])
    ensures s != [] && !IsSpace(s[0]) ==> w != []
  {
    if s == [] || IsSpace(s[0]) then "" else [s[0]] + Word(s[1..])
  }

  /** Python's `<` on strings: code-point lexicographic order. */
  predicate StrLt(a: string, b: string)
  {
    if a == [] then b != []
    else if b == [] then false
    else if a[0] != b[0] then a[0] < b[0]
    else StrLt(a[1..], b[1..])
  }

  lemma {:induction false} StrLtIrreflexive(a: string)
    ensures !StrLt(a, a)
  {
    if a != [] { StrLtIrreflexive(a[1..]); }
  }

  lemma {:induction false} StrLtTransitive(a: string, b: string, c: string)
    requires StrLt(a, b) && StrLt(b, c)
    ensures StrLt(a, c)
  {
    if a != [] && b != [] && c != [] && a[0] == b[0] == c[0] {
      StrLtTransitive(a[1..], b[1..], c[1..]);
    }
  }

  lemma {:induction false} StrLtTotal(a: string, b: string)
    requires a != b
    ensures StrLt(a, b) || StrLt(b, a)
  {
    if a != [] && b != [] && a[0] == b[0] {
      assert a == [a[0]] + a[1..] && b == [b[0]] + b[1..];
      StrLtTotal(a[1..], b[1..]);
    }
  }
}
