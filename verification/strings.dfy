/** The JavaScript string operations the editor uses, over `seq<char>`:
    `split` / `join` on one separator character and `startsWith`, each with a
    contract that characterises its result. `IndexOfFrom` and `LastIndexOf`
    (`indexOf` / `lastIndexOf`) are not called by the editor; they are
    reference definitions that characterise `ExportModal.FileName` and the
    header match. */
module Strings {
  import opened Base

  /** `s.split(c)`: the maximal `c`-free pieces of `s`, in order. Never empty:
      `"".split(c)` is `[""]`. */
  function Split(s: string, c: char): (parts: seq<string>)
    ensures |parts| >= 1
    ensures forall i :: 0 <= i < |parts| ==> c !in parts[i]
    decreases |s|
  {
    if |s| == 0 then [""]
    else
      var rest := Split(s[1..], c);
      if s[0] == c then [""] + rest
      else [[s[0]] + rest[0]] + rest[1..]
  }

  /** `parts.join(c)`. */
  function Join(parts: seq<string>, c: char): string
  {
    if |parts| == 0 then ""
    else if |parts| == 1 then parts[0]
    else parts[0] + [c] + Join(parts[1..], c)
  }

  /** `s.startsWith(prefix)`. */
  predicate StartsWith(s: string, prefix: string)
  {
    |prefix| <= |s| && s[..|prefix|] == prefix
  }

  /** `s.indexOf(c, from)` for `from <= |s|`, with -1 as `None`. */
  function IndexOfFrom(s: string, c: char, from: nat): (r: Option<nat>)
    requires from <= |s|
    ensures r.None? <==> forall k :: from <= k < |s| ==> s[k] != c
    ensures r.Some? ==> from <= r.value < |s| && s[r.value] == c
    ensures r.Some? ==> forall k :: from <= k < r.value ==> s[k] != c
    decreases |s| - from
  {
    if from == |s| then None
    else if s[from] == c then Some(from)
    else IndexOfFrom(s, c, from + 1)
  }

  /** `s.lastIndexOf(c)`, with -1 as `None`. */
  function LastIndexOf(s: string, c: char): (r: Option<nat>)
    ensures r.None? <==> c !in s
    ensures r.Some? ==> r.value < |s| && s[r.value] == c && c !in s[r.value + 1..]
  {
    if |s| == 0 then None
    else if s[|s| - 1] == c then Some(|s| - 1)
    else
      var r := LastIndexOf(s[..|s| - 1], c);
      assert r.Some? ==> s[r.value + 1..] == s[..|s| - 1][r.value + 1..] + [s[|s| - 1]];
      r
  }

  /** Splitting and joining again on the same character gives back the string. */
  lemma {:induction false} JoinSplit(s: string, c: char)
    ensures Join(Split(s, c), c) == s
    decreases |s|
  {
    if |s| > 0 {
      var rest := Split(s[1..], c);
      JoinSplit(s[1..], c);
      if s[0] == c {
        assert ([""] + rest)[1..] == rest;
      } else if |rest| > 1 {
        var parts := [[s[0]] + rest[0]] + rest[1..];
        assert parts[1..] == rest[1..];
        assert Join(rest, c) == rest[0] + [c] + Join(rest[1..], c);
      }
    }
  }

  /** `split` yields one piece exactly when the separator does not occur. */
  lemma {:induction false} SplitSingle(s: string, c: char)
    ensures c !in s <==> |Split(s, c)| == 1
    ensures c !in s ==> Split(s, c) == [s]
    decreases |s|
  {
    if |s| > 0 {
      SplitSingle(s[1..], c);
      if s[0] != c {
        assert c in s <==> c in s[1..];
        assert [s[0]] + s[1..] == s;
      }
    }
  }

  /** A piece free of the separator, then the separator, splits off first. */
  lemma {:induction false} SplitAfterPiece(x: string, c: char, y: string)
    requires c !in x
    ensures Split(x + [c] + y, c) == [x] + Split(y, c)
    decreases |x|
  {
    var s := x + [c] + y;
    if |x| == 0 {
      assert s[1..] == y;
    } else {
      assert s[1..] == x[1..] + [c] + y;
      SplitAfterPiece(x[1..], c, y);
      assert [x[0]] + x[1..] == x;
    }
  }

  /** Joining at least two pieces puts a separator before the last one. */
  lemma {:induction false} JoinLast(parts: seq<string>, c: char)
    requires |parts| >= 2
    ensures Join(parts, c) == Join(parts[..|parts| - 1], c) + [c] + parts[|parts| - 1]
    decreases |parts|
  {
    if |parts| > 2 {
      JoinLast(parts[1..], c);
      assert parts[1..][..|parts| - 2] == parts[..|parts| - 1][1..];
    }
  }

  /** The last occurrence of `c` is the one not followed by another. */
  lemma LastIndexOfSplitPoint(x: string, c: char, y: string)
    requires c !in y
    ensures LastIndexOf(x + [c] + y, c) == Some(|x|)
  {
    var s := x + [c] + y;
    var r := LastIndexOf(s, c);
    assert s[|x|] == c;
    assert r.Some?;
  }

  /** In `x + [c] + y` with `y` free of `c`, the last `c` ends `x`. */
  lemma BeforeLastSeparator(s: string, x: string, c: char, y: string)
    requires s == x + [c] + y && c !in y
    ensures LastIndexOf(s, c) == Some(|x|) && s[..|x|] == x
  {
    LastIndexOfSplitPoint(x, c, y);
    assert s[..|x|] == x;
  }

  /** When the last of several pieces is free of `c`, joining all but the
      last gives the text before the last `c` of the full join. */
  lemma JoinInitBeforeLast(parts: seq<string>, c: char)
    requires |parts| >= 2 && c !in parts[|parts| - 1]
    ensures var s := Join(parts, c);
      LastIndexOf(s, c).Some? && Join(parts[..|parts| - 1], c) == s[..LastIndexOf(s, c).value]
  {
    JoinLast(parts, c);
    BeforeLastSeparator(Join(parts, c), Join(parts[..|parts| - 1], c), c, parts[|parts| - 1]);
  }

  /** Dropping the last piece of a split and joining the rest gives the text
      before the last separator. */
  lemma DropLastPiece(s: string, c: char)
    requires c in s
    ensures |Split(s, c)| >= 2 && LastIndexOf(s, c).Some?
    ensures Join(Split(s, c)[..|Split(s, c)| - 1], c) == s[..LastIndexOf(s, c).value]
  {
    SplitSingle(s, c);
    JoinInitBeforeLast(Split(s, c), c);
    JoinSplit(s, c);
  }
}
