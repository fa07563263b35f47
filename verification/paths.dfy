/**
 * Go's path/filepath on Unix, as the service uses it to validate configured
 * directories and to build the path of a comment file: IsAbs, the lexical
 * Clean, and Join.
 */
module Paths {
  import opened Common

  /** filepath.IsAbs on Unix. */
  predicate IsAbs(p: string) {
    |p| > 0 && p[0] == '/'
  }

  /** A path element that names a real entry: not empty, "." or "..". */
  predicate Normal(e: string) {
    e != "" && e != "." && e != ".." && '/' !in e
  }

  /**
   * One element of Clean's left-to-right pass: "" and "." vanish, ".." removes
   * the previous real element (or is kept at the front of a relative path,
   * dropped at the root), any other element is appended.
   */
  function Push(stack: seq<string>, e: string, rooted: bool): seq<string> {
    if e == "" || e == "." then stack
    else if e == ".." then
      if |stack| > 0 && stack[|stack| - 1] != ".." then stack[..|stack| - 1]
      else if rooted then stack
      else stack + [".."]
    else stack + [e]
  }

  function Reduce(elems: seq<string>, rooted: bool): seq<string>
    decreases |elems|
  {
    if |elems| == 0 then []
    else Push(Reduce(elems[..|elems| - 1], rooted), elems[|elems| - 1], rooted)
  }

  /**
   * The shape of Clean's element list: no empty or "." elements, and ".."
   * only in a leading run.
   */
  ghost predicate CleanElems(s: seq<string>) {
    forall i :: 0 <= i < |s| ==>
      s[i] != "" && s[i] != "." && '/' !in s[i]
      && (s[i] == ".." ==> forall j :: 0 <= j < i ==> s[j] == "..")
  }

  /** filepath.Clean. */
  function Clean(p: string): (r: string)
    ensures r != ""
  {
    var rooted := IsAbs(p);
    var body := Join(Reduce(Split(p, '/'), rooted), '/');
    if rooted then "/" + body else if body == "" then "." else body
  }

  /** filepath.Join of two elements: empty elements are skipped, the result cleaned. */
  function JoinPath(a: string, b: string): string {
    if a != "" then Clean(a + "/" + b)
    else if b != "" then Clean(b)
    else ""
  }

  /** A relative path that stays inside its base directory. */
  ghost predicate Inside(c: string) {
    c == "." || forall i :: 0 <= i < |Split(c, '/')| ==> Normal(Split(c, '/')[i])
  }

  lemma {:induction false} ReduceIsClean(elems: seq<string>, rooted: bool)
    requires forall i :: 0 <= i < |elems| ==> '/' !in elems[i]
    ensures CleanElems(Reduce(elems, rooted))
    decreases |elems|
  {
    if |elems| > 0 {
      ReduceIsClean(elems[..|elems| - 1], rooted);
    }
  }

  lemma {:induction false} ReduceOfNormal(elems: seq<string>, rooted: bool)
    requires forall i :: 0 <= i < |elems| ==> Normal(elems[i])
    ensures Reduce(elems, rooted) == elems
    decreases |elems|
  {
    if |elems| > 0 {
      ReduceOfNormal(elems[..|elems| - 1], rooted);
      assert elems == elems[..|elems| - 1] + [elems[|elems| - 1]];
    }
  }

  lemma {:induction false} JoinStartsWithFirst(parts: seq<string>, sep: char)
    requires |parts| >= 1
    ensures HasPrefix(Join(parts, sep), parts[0])
  {
  }

  lemma {:induction false} JoinAppend(parts: seq<string>, sep: char, x: string)
    requires |parts| >= 1
    ensures Join(parts + [x], sep) == Join(parts, sep) + [sep] + x
  {
    if |parts| > 1 {
      assert (parts + [x])[1..] == parts[1..] + [x];
      JoinAppend(parts[1..], sep, x);
    }
  }

  /**
   * A relative path whose cleaned form does not start with ".." has no ".."
   * element at all: it cannot name anything outside its base directory.
   */
  lemma CleanedRelativeStaysInside(p: string)
    requires !IsAbs(p) && !HasPrefix(Clean(p), "..")
    ensures Inside(Clean(p))
  {
    var r := Reduce(Split(p, '/'), false);
    SplitParts(p, '/');
    ReduceIsClean(Split(p, '/'), false);
    if r != [] {
      var c := Join(r, '/');
      SplitJoin(r, '/');
      JoinStartsWithFirst(r, '/');
      assert r[0] != "..";
      assert forall i :: 0 <= i < |r| ==> Normal(r[i]);
    }
  }

  /**
   * Joining a path that stays inside its base with one more real element is
   * plain concatenation, and the result stays inside too.
   */
  lemma JoinInside(c: string, name: string)
    requires Inside(c) && Normal(name)
    ensures JoinPath(c, name) == (if c == "." then name else c + "/" + name)
    ensures Inside(JoinPath(c, name))
  {
    SplitJoin([name], '/');
    assert Split(name, '/') == [name];
    if c == "." {
      SplitConcat(".", '/', name);
      assert Split(".", '/') == ["."];
      var elems := Split("." + "/" + name, '/');
      assert elems == [".", name];
      assert elems[..1] == ["."];
      assert Reduce([name], false) == [name] by {
        assert [name][..0] == [];
      }
      assert Reduce(elems, false) == [name];
    } else {
      var r := Split(c, '/');
      JoinSplit(c, '/');
      JoinStartsWithFirst(r, '/');
      assert c[0] == r[0][0];
      SplitConcat(c, '/', name);
      var elems := Split(c + "/" + name, '/');
      assert elems == r + [name];
      assert forall i :: 0 <= i < |elems| ==> Normal(elems[i]) by {
        forall i | 0 <= i < |elems| ensures Normal(elems[i]) {
          if i < |r| {
            assert elems[i] == r[i];
          }
        }
      }
      ReduceOfNormal(elems, false);
      JoinAppend(r, '/', name);
      SplitJoin(elems, '/');
    }
  }

  /** Normal elements appended after any prefix survive Reduce unchanged. */
  lemma {:induction false} ReduceAppendNormal(pre: seq<string>, elems: seq<string>, rooted: bool)
    requires forall i :: 0 <= i < |elems| ==> Normal(elems[i])
    ensures Reduce(pre + elems, rooted) == Reduce(pre, rooted) + elems
    decreases |elems|
  {
    if |elems| == 0 {
      assert pre + elems == pre;
    } else {
      var n := |elems| - 1;
      assert (pre + elems)[..|pre| + n] == pre + elems[..n];
      ReduceAppendNormal(pre, elems[..n], rooted);
      assert elems == elems[..n] + [elems[n]];
    }
  }

  /** The empty element before the first "/" of an absolute path vanishes. */
  lemma ReduceRoot()
    ensures Reduce([""], true) == []
  {
    assert [""][..0] == [];
  }

  lemma NormalAfterTwo(a: string, b: string, elems: seq<string>)
    requires Normal(a) && Normal(b)
    requires forall i :: 0 <= i < |elems| ==> Normal(elems[i])
    ensures forall i :: 0 <= i < |[a, b] + elems| ==> Normal(([a, b] + elems)[i])
  {
    var rest := [a, b] + elems;
    forall i | 0 <= i < |rest|
      ensures Normal(rest[i])
    {
      if i >= 2 {
        assert rest[i] == elems[i - 2];
      }
    }
  }

  lemma ConsTwo<T>(x: T, a: T, b: T, s: seq<T>)
    ensures [x] + ([a, b] + s) == [x, a, b] + s
  {
  }

  /** Below the root, two normal elements and the normal ones after them are kept. */
  lemma RootedReduce(a: string, b: string, elems: seq<string>)
    requires Normal(a) && Normal(b)
    requires forall i :: 0 <= i < |elems| ==> Normal(elems[i])
    ensures Reduce(["", a, b] + elems, true) == [a, b] + elems
  {
    calc {
      Reduce(["", a, b] + elems, true);
    == { ConsTwo("", a, b, elems); }
      Reduce([""] + ([a, b] + elems), true);
    == { NormalAfterTwo(a, b, elems); ReduceAppendNormal([""], [a, b] + elems, true); }
      Reduce([""], true) + ([a, b] + elems);
    == { ReduceRoot(); }
      [a, b] + elems;
    }
  }
}
