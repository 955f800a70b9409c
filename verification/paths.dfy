/**
 The operations of Go's `path` package that the generator uses: slash-separated
 paths as `seq<char>`. Clean follows the package's documented rules (collapse
 repeated slashes, drop `.` elements, cancel `..` against the element before
 it, drop `..` at the root, and answer "." for an empty result).
 */
module Paths {
  import Strings

  /** The last path element: the text after the final slash (all of `p`
      when there is none). Characterised without reference to any search. */
  ghost predicate IsLastElement(p: string, file: string)
  {
    && |file| <= |p|
    && p[|p| - |file|..] == file
    && '/' !in file
    && (|file| < |p| ==> p[|p| - |file| - 1] == '/')
  }

  /** path.Split: the directory part, up to and including the final slash,
      and the file part after it. */
  function Split(p: string): (r: (string, string))
    ensures r.0 + r.1 == p
    ensures IsLastElement(p, r.1)
    ensures r.0 == "" || r.0[|r.0| - 1] == '/'
  {
    var i := Strings.LastIndexOf(p, '/');
    (p[..i + 1], p[i + 1..])
  }

  /** path.Ext: the tail of `p` from its final dot, provided no slash comes
      after that dot; "" otherwise. */
  function Ext(p: string): (e: string)
    ensures |e| <= |p| && p[|p| - |e|..] == e
    ensures e != "" ==> e[0] == '.' && '.' !in e[1..] && '/' !in e
  {
    var dot := Strings.LastIndexOf(p, '.');
    var slash := Strings.LastIndexOf(p, '/');
    if dot <= slash then ""
    else
      DotTail(p, dot, slash);
      p[dot..]
  }

  /** The tail from the last dot, when no slash follows that dot. */
  lemma DotTail(p: string, dot: int, slash: int)
    requires dot == Strings.LastIndexOf(p, '.') && slash == Strings.LastIndexOf(p, '/')
    requires slash < dot
    ensures p[dot..][0] == '.' && '.' !in p[dot..][1..] && '/' !in p[dot..]
  {
    assert p[dot..][1..] == p[dot + 1..];
    assert forall k :: dot <= k < |p| ==> p[k] != '/' by {
      forall k | dot <= k < |p|
        ensures p[k] != '/'
      {
        if slash >= 0 {
          assert p[slash + 1..][k - slash - 1] == p[k];
        }
      }
    }
  }

  /** Ext is empty exactly when the last element has no dot. */
  lemma ExtInLastElement(p: string)
    ensures Ext(p) == "" <==> '.' !in Split(p).1
  {
    var dot := Strings.LastIndexOf(p, '.');
    var slash := Strings.LastIndexOf(p, '/');
    assert Split(p).1 == p[slash + 1..];
    if dot > slash {
      DotAfter(p, dot, slash);
    } else {
      NoDotAfter(p, dot, slash);
    }
  }

  lemma DotAfter(p: string, dot: int, slash: int)
    requires 0 <= dot < |p| && p[dot] == '.' && -1 <= slash < dot
    ensures '.' in p[slash + 1..]
  {
    assert p[slash + 1..][dot - slash - 1] == '.';
  }

  lemma NoDotAfter(p: string, dot: int, slash: int)
    requires dot == Strings.LastIndexOf(p, '.') && -1 <= dot <= slash < |p|
    ensures '.' !in p[slash + 1..]
  {
    var tail := p[slash + 1..];
    forall k | 0 <= k < |tail|
      ensures tail[k] != '.'
    {
      assert tail[k] == p[slash + 1 + k];
    }
  }

  /** A dot with no slash after it gives a non-empty extension. */
  lemma ExtFindsDot(p: string, k: int)
    requires 0 <= k < |p| && p[k] == '.'
    requires forall j :: k < j < |p| ==> p[j] != '/'
    ensures Ext(p) != ""
  {
  }

  /** A path element that Clean keeps as it is: not empty, not `.`, `..`. */
  predicate IsName(e: string)
  {
    e != "" && e != "." && e != ".."
  }

  /** The elements Clean looks at: empty elements (from repeated or
      trailing slashes) and `.` elements are dropped. */
  function Keep(es: seq<string>): (r: seq<string>)
    ensures forall k :: 0 <= k < |r| ==> r[k] != "" && r[k] != "."
    ensures forall k :: 0 <= k < |r| ==> r[k] in es
    ensures |r| <= |es|
  {
    if |es| == 0 then []
    else
      var last := es[|es| - 1];
      Keep(es[..|es| - 1]) + (if last != "" && last != "." then [last] else [])
  }

  /** One element of Clean's left-to-right scan over a stack of kept
      elements: `..` cancels the element before it, is dropped at the root
      of a rooted path, and is kept otherwise. */
  function Step(stack: seq<string>, e: string, rooted: bool): seq<string>
  {
    if e == ".." then
      if |stack| > 0 && stack[|stack| - 1] != ".." then stack[..|stack| - 1]
      else if rooted then stack
      else stack + [".."]
    else stack + [e]
  }

  /** The stack Clean holds after scanning `es` from left to right. */
  function Reduce(es: seq<string>, rooted: bool): seq<string>
  {
    if |es| == 0 then []
    else Step(Reduce(es[..|es| - 1], rooted), es[|es| - 1], rooted)
  }

  /** Every element Clean's scan keeps is one of the scanned elements or a
      `..` it could not cancel. */
  lemma {:induction false} ReduceFrom(es: seq<string>, rooted: bool)
    ensures forall k :: 0 <= k < |Reduce(es, rooted)| ==> Reduce(es, rooted)[k] in es || Reduce(es, rooted)[k] == ".."
    decreases |es|
  {
    if |es| > 0 {
      var init := es[..|es| - 1];
      ReduceFrom(init, rooted);
      assert forall x :: x in init ==> x in es;
    }
  }

  /** A join of pieces starts with its first piece. */
  lemma JoinWithHead(parts: seq<string>, c: char)
    requires |parts| > 0
    ensures parts[0] <= Strings.JoinWith(parts, c)
  {
  }

  /** path.Clean: never empty, and rooted exactly when its input is. */
  function Clean(p: string): (r: string)
    ensures r != ""
    ensures p == "" ==> r == "."
    ensures r[0] == '/' <==> p != "" && p[0] == '/'
  {
    if p == "" then "."
    else
      var rooted := p[0] == '/';
      var stack := Reduce(Keep(Strings.Split(p, '/')), rooted);
      var body := Strings.JoinWith(stack, '/');
      if rooted then "/" + body
      else if body == "" then "."
      else
        assert body[0] != '/' by {
          CleanBodyUnrooted(p, stack, rooted);
        }
        body
  }

  /** The cleaned elements hold no slash and are not empty, so their join
      does not start with a slash. */
  lemma CleanBodyUnrooted(p: string, stack: seq<string>, rooted: bool)
    requires stack == Reduce(Keep(Strings.Split(p, '/')), rooted)
    requires Strings.JoinWith(stack, '/') != ""
    ensures Strings.JoinWith(stack, '/')[0] != '/'
  {
    var es := Strings.Split(p, '/');
    var kept := Keep(es);
    ReduceFrom(kept, rooted);
    assert |stack| > 0;
    var first := stack[0];
    assert first in kept || first == "..";
    if first in kept {
      var k :| 0 <= k < |kept| && kept[k] == first;
      assert first in es;
      var j :| 0 <= j < |es| && es[j] == first;
      assert '/' !in first && first != "";
    }
    JoinWithHead(stack, '/');
    assert first[0] != '/' by {
      assert first[0] in first;
    }
  }

  /** path.Join of two elements: the elements that are not empty, joined by
      a slash and cleaned; "" when both are empty. The result is rooted
      exactly when its first non-empty element is. */
  function Join(dir: string, file: string): (r: string)
    ensures r == "" <==> dir == "" && file == ""
    ensures r != "" ==> (r[0] == '/' <==> (if dir != "" then dir[0] == '/' else file[0] == '/'))
  {
    if dir != "" then Clean(dir + "/" + file)
    else if file != "" then Clean(file)
    else ""
  }

  lemma SplitUnderDir(dir: string, file: string)
    requires '/' !in file
    ensures Strings.Split(dir + "/" + file, '/') == Strings.Split(dir, '/') + [file]
  {
    Strings.SplitAppend(dir, file, '/');
    assert Strings.Split(file, '/') == [file];
  }

  lemma KeepSnoc(es: seq<string>, file: string)
    requires IsName(file)
    ensures Keep(es + [file]) == Keep(es) + [file]
  {
    assert (es + [file])[..|es|] == es;
  }

  lemma ReduceSnoc(es: seq<string>, file: string, rooted: bool)
    requires IsName(file)
    ensures Reduce(es + [file], rooted) == Reduce(es, rooted) + [file]
  {
    assert (es + [file])[..|es|] == es;
  }

  /** Cleaning `dir/file` cleans `dir` and puts `file` last. */
  lemma CleanUnderDir(dir: string, file: string)
    requires '/' !in file && IsName(file)
    ensures var p := dir + "/" + file;
            var stack := Reduce(Keep(Strings.Split(dir, '/')), p[0] == '/');
            var body := Strings.JoinWith(stack + [file], '/');
            Clean(p) == if p[0] == '/' then "/" + body else body
  {
    var p := dir + "/" + file;
    var rooted := p[0] == '/';
    var es := Strings.Split(dir, '/');
    SplitUnderDir(dir, file);
    KeepSnoc(es, file);
    ReduceSnoc(Keep(es), file, rooted);
    var stack := Reduce(Keep(es), rooted);
    assert Reduce(Keep(Strings.Split(p, '/')), rooted) == stack + [file];
    JoinWithLast(stack, file);
  }

  lemma LastElementUnderRoot(p: string, file: string)
    requires IsLastElement(p, file)
    ensures IsLastElement("/" + p, file)
  {
    var q := "/" + p;
    assert q[|q| - |file|..] == p[|p| - |file|..];
    if |file| < |p| {
      assert q[|q| - |file| - 1] == p[|p| - |file| - 1];
    }
  }

  /** The last piece of a join is the last element of the joined text. */
  lemma JoinWithLast(stack: seq<string>, file: string)
    requires '/' !in file
    ensures IsLastElement(Strings.JoinWith(stack + [file], '/'), file)
  {
    if |stack| > 0 {
      Strings.JoinWithSnoc(stack, file, '/');
    } else {
      assert stack + [file] == [file];
    }
  }

  /** Joining a plain file name under any directory leaves that file name as
      the last element of the result. */
  lemma JoinKeepsFile(dir: string, file: string)
    requires dir != "" && '/' !in file && IsName(file)
    ensures IsLastElement(Join(dir, file), file)
  {
    var rooted := (dir + "/" + file)[0] == '/';
    var stack := Reduce(Keep(Strings.Split(dir, '/')), rooted);
    CleanUnderDir(dir, file);
    JoinWithLast(stack, file);
    var body := Strings.JoinWith(stack + [file], '/');
    if rooted {
      LastElementUnderRoot(body, file);
    }
  }

  /** A directory with no empty, `.` or `..` element and no leading slash is
      already clean. */
  predicate IsPlainDir(dir: string)
  {
    forall e :: e in Strings.Split(dir, '/') ==> IsName(e)
  }

  lemma {:induction false} KeepNames(es: seq<string>)
    requires forall e :: e in es ==> IsName(e)
    ensures Keep(es) == es
    decreases |es|
  {
    if |es| > 0 {
      assert es[|es| - 1] in es;
      KeepNames(es[..|es| - 1]);
      assert es[..|es| - 1] + [es[|es| - 1]] == es;
    }
  }

  lemma {:induction false} ReduceNames(es: seq<string>, rooted: bool)
    requires forall e :: e in es ==> IsName(e)
    ensures Reduce(es, rooted) == es
    decreases |es|
  {
    if |es| > 0 {
      assert es[|es| - 1] in es;
      ReduceNames(es[..|es| - 1], rooted);
      assert es[..|es| - 1] + [es[|es| - 1]] == es;
    }
  }

  /** For a plain directory, Join is the plain `dir/file` concatenation. */
  lemma JoinPlain(dir: string, file: string)
    requires IsPlainDir(dir) && '/' !in file && IsName(file)
    ensures Join(dir, file) == dir + "/" + file
  {
    var es := Strings.Split(dir, '/');
    assert es[0] in es;
    SplitUnderDir(dir, file);
    var all := es + [file];
    KeepNames(all);
    assert dir[0] != '/' by {
      Strings.SplitHead(dir, '/');
    }
    var rooted := (dir + "/" + file)[0] == '/';
    ReduceNames(all, rooted);
    Strings.JoinWithSnoc(es, file, '/');
  }
}
