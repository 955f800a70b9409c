/**
 The few operations of Go's `strings` package that the generator uses, on
 `seq<char>`. Positions follow Go's convention: a search that finds nothing
 answers -1.
 */
module Strings {

  /** strings.IndexByte / strings.Index with a one-character needle:
      the first position of `c` in `s`, or -1. */
  function IndexOf(s: string, c: char): (i: int)
    ensures -1 <= i < |s|
    ensures i == -1 <==> c !in s
    ensures 0 <= i ==> s[i] == c && c !in s[..i]
  {
    if |s| == 0 then -1
    else if s[0] == c then 0
    else
      var j := IndexOf(s[1..], c);
      if j < 0 then -1
      else
        assert s[..j + 1] == [s[0]] + s[1..][..j];
        j + 1
  }

  /** strings.LastIndex with a one-character needle: the last position of
      `c` in `s`, or -1. */
  function LastIndexOf(s: string, c: char): (i: int)
    ensures -1 <= i < |s|
    ensures 0 <= i ==> s[i] == c
    ensures forall k :: i < k < |s| ==> s[k] != c
  {
    if |s| == 0 then -1
    else if s[|s| - 1] == c then |s| - 1
    else
      assert s == s[..|s| - 1] + [s[|s| - 1]];
      LastIndexOf(s[..|s| - 1], c)
  }

  /** The first occurrence is unique: any position holding `c` with no `c`
      before it is the one IndexOf finds. */
  lemma IndexOfUnique(s: string, c: char, k: int)
    requires 0 <= k < |s| && s[k] == c && c !in s[..k]
    ensures IndexOf(s, c) == k
  {
    var i := IndexOf(s, c);
    assert forall j :: 0 <= j < k ==> s[j] != c by {
      forall j | 0 <= j < k
        ensures s[j] != c
      {
        assert s[..k][j] == s[j];
      }
    }
    assert forall j :: 0 <= j < i ==> s[j] != c by {
      forall j | 0 <= j < i
        ensures s[j] != c
      {
        assert s[..i][j] == s[j];
      }
    }
  }

  /** The last occurrence is unique: a position holding `c` with no `c`
      after it is the one LastIndexOf finds (-1 standing for the position
      before the text). */
  lemma LastIndexOfAt(s: string, c: char, k: int)
    requires -1 <= k < |s| && (0 <= k ==> s[k] == c)
    requires forall j :: k < j < |s| ==> s[j] != c
    ensures LastIndexOf(s, c) == k
  {
  }

  /** strings.HasSuffix. */
  predicate HasSuffix(s: string, suffix: string)
  {
    |suffix| <= |s| && s[|s| - |suffix|..] == suffix
  }

  /** strings.TrimPrefix: drops `prefix` from the front of `s` when it is
      there, and leaves `s` alone otherwise. */
  function TrimPrefix(s: string, prefix: string): (r: string)
    ensures prefix <= s ==> prefix + r == s
    ensures !(prefix <= s) ==> r == s
    ensures |r| <= |s|
  {
    if prefix <= s then s[|prefix|..] else s
  }

  /** strings.Join with a one-character separator. */
  function JoinWith(parts: seq<string>, c: char): string
  {
    if |parts| == 0 then ""
    else if |parts| == 1 then parts[0]
    else parts[0] + [c] + JoinWith(parts[1..], c)
  }

  /** strings.Split with a one-character separator: the maximal pieces of
      `s` between occurrences of `c`, so there is always one more piece than
      there are separators, and joining the pieces back gives `s`. */
  function Split(s: string, c: char): (parts: seq<string>)
    ensures |parts| == multiset(s)[c] + 1
    ensures forall k :: 0 <= k < |parts| ==> c !in parts[k]
    ensures JoinWith(parts, c) == s
    decreases |s|
  {
    var i := IndexOf(s, c);
    if i < 0 then
      assert multiset(s)[c] == 0;
      [s]
    else
      var rest := Split(s[i + 1..], c);
      assert s == s[..i] + [c] + s[i + 1..];
      assert multiset(s) == multiset(s[..i]) + multiset{c} + multiset(s[i + 1..]) by {
        calc {
          multiset(s);
          multiset(s[..i] + [c] + s[i + 1..]);
          multiset(s[..i] + [c]) + multiset(s[i + 1..]);
          multiset(s[..i]) + multiset{c} + multiset(s[i + 1..]);
        }
      }
      assert multiset(s[..i])[c] == 0;
      assert ([s[..i]] + rest)[1..] == rest;
      [s[..i]] + rest
  }

  /** The first piece of a split is the text before the first separator
      (all of `s` when there is none). */
  lemma SplitHead(s: string, c: char)
    ensures Split(s, c)[0] <= s
    ensures c !in s ==> Split(s, c)[0] == s
    ensures c in s ==> s[|Split(s, c)[0]|] == c
  {
  }

  /** One step of Split: the text before the first separator, then the
      split of what follows it. */
  lemma SplitStep(s: string, c: char, i: int)
    requires 0 <= i < |s| && s[i] == c && c !in s[..i]
    ensures Split(s, c) == [s[..i]] + Split(s[i + 1..], c)
  {
    IndexOfUnique(s, c, i);
  }

  lemma ConsAppend(x: string, p: seq<string>, q: seq<string>, whole: seq<string>, left: seq<string>)
    requires whole == [x] + (p + q) && left == [x] + p
    ensures whole == left + q
  {
  }

  /** Splitting at a separator written between two texts splits each side
      on its own. */
  lemma {:induction false} SplitAppend(a: string, b: string, c: char)
    ensures Split(a + [c] + b, c) == Split(a, c) + Split(b, c)
    decreases |a|
  {
    var s := a + [c] + b;
    var i := IndexOf(a, c);
    if i < 0 {
      assert s[..|a|] == a && s[|a| + 1..] == b;
      SplitStep(s, c, |a|);
      assert Split(a, c) == [a];
    } else {
      assert s[..i] == a[..i];
      assert s[i + 1..] == a[i + 1..] + [c] + b;
      SplitStep(s, c, i);
      var tail := a[i + 1..];
      assert Split(s, c) == [a[..i]] + Split(tail + [c] + b, c);
      SplitAppend(tail, b, c);
      SplitStep(a, c, i);
      ConsAppend(a[..i], Split(tail, c), Split(b, c), Split(s, c), Split(a, c));
    }
  }

  /** Joining pieces that hold no separator and splitting the result gives
      the pieces back: Split is the inverse of JoinWith. */
  lemma {:induction false} SplitJoin(parts: seq<string>, c: char)
    requires |parts| > 0
    requires forall k :: 0 <= k < |parts| ==> c !in parts[k]
    ensures Split(JoinWith(parts, c), c) == parts
    decreases |parts|
  {
    if |parts| > 1 {
      SplitJoin(parts[1..], c);
      SplitAppend(parts[0], JoinWith(parts[1..], c), c);
      assert Split(parts[0], c) == [parts[0]];
    } else {
      assert Split(parts[0], c) == [parts[0]];
    }
  }

  /** Adding one more piece to a join adds a separator and that piece. */
  lemma {:induction false} JoinWithSnoc(parts: seq<string>, p: string, c: char)
    requires |parts| > 0
    ensures JoinWith(parts + [p], c) == JoinWith(parts, c) + [c] + p
    decreases |parts|
  {
    if |parts| > 1 {
      assert (parts + [p])[1..] == parts[1..] + [p];
      JoinWithSnoc(parts[1..], p, c);
    } else {
      assert (parts + [p])[1..] == [p];
    }
  }
}
