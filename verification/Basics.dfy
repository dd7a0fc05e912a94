/** Shared value types. */
module Basics {

  datatype Option<+T> = None | Some(value: T)

  type byte = x: int | 0 <= x < 256

  /** The size of a fresh network buffer. */
  const DATA_BUFFER_SIZE: nat := 2048

  function Last<T>(s: seq<T>): T
    requires s != []
  {
    s[|s| - 1]
  }

  /** No value occurs twice. */
  ghost predicate NoDuplicates<T>(s: seq<T>) {
    forall i, j :: 0 <= i < j < |s| ==> s[i] != s[j]
  }

  lemma NoDuplicatesExtend<T>(s: seq<T>, x: T)
    requires NoDuplicates(s) && x !in s
    ensures NoDuplicates(s + [x])
  {
  }

  lemma SliceOfDrop<T>(s: seq<T>, lo: nat, a: nat, b: nat)
    requires lo <= a <= b <= |s|
    ensures s[lo..][a - lo..b - lo] == s[a..b]
  {
  }

  lemma SliceOfTake<T>(s: seq<T>, hi: nat, a: nat, b: nat)
    requires a <= b <= hi <= |s|
    ensures s[..hi][a..b] == s[a..b]
  {
  }

  lemma SplitSlice<T>(s: seq<T>, a: nat, b: nat, c: nat)
    requires a <= b <= c <= |s|
    ensures s[a..c][..b - a] == s[a..b] && s[a..c][b - a..] == s[b..c]
  {
  }

  lemma SameBelow<T>(s: seq<T>, t: seq<T>, hi: nat, a: nat, b: nat)
    requires a <= b <= hi <= |s| && hi <= |t| && s[..hi] == t[..hi]
    ensures s[a..b] == t[a..b]
  {
    SliceOfTake(s, hi, a, b);
    SliceOfTake(t, hi, a, b);
  }

  lemma TakeAndDrop<T>(s: seq<T>, n: nat)
    requires n <= |s|
    ensures s[..n] + s[n..] == s && (n == |s| ==> s[n..] == [])
  {
  }

  lemma CutOfConcat<T>(p: seq<T>, q: seq<T>, n: nat)
    requires n <= |p|
    ensures (p + q)[n..] == p[n..] + q
  {
  }

  lemma DropOfConcat<T>(p: seq<T>, q: seq<T>, n: nat)
    requires |p| <= n <= |p| + |q|
    ensures (p + q)[n..] == q[n - |p|..]
  {
  }

  lemma SplitOfConcat<T>(p: seq<T>, q: seq<T>)
    ensures (p + q)[..|p|] == p && (p + q)[|p|..] == q
  {
  }

  lemma PartsOfConcat<T>(p: seq<T>, q: seq<T>, r: seq<T>)
    ensures var s := p + q + r;
            && s[..|p|] == p && s[|p|..|p| + |q|] == q && s[|p| + |q|..|p| + |q| + |r|] == r
            && (p + q)[..|p|] == p && (p + q)[|p|..|p| + |q|] == q
  {
  }

  lemma TakeInParts<T>(s: seq<T>, i: nat, j: nat)
    requires i + j <= |s|
    ensures s[..i] + s[i..][..j] == s[..i + j]
  {
  }

  lemma WholeInParts<T>(s: seq<T>, i: nat, j: nat)
    requires i + j <= |s|
    ensures s[..i] + s[i..][..j] + s[i + j..] == s
  {
    TakeInParts(s, i, j);
  }

  lemma ConcatInOrder<T>(p: seq<T>, a: seq<T>, b: seq<T>, c: seq<T>, d: seq<T>)
    ensures p + a + b + c + d == p + (a + (b + c + d))
  {
  }

  lemma ConcatAssociates<T>(p: seq<T>, q: seq<T>, r: seq<T>)
    ensures p + (q + r) == p + q + r
  {
  }

  function Join<T>(parts: seq<seq<T>>): seq<T> {
    if parts == [] then [] else parts[0] + Join(parts[1..])
  }

  lemma {:induction false} JoinAppend<T>(parts: seq<seq<T>>, p: seq<T>)
    ensures Join(parts + [p]) == Join(parts) + p
  {
    if parts == [] {
      assert parts + [p] == [p];
    } else {
      JoinAppend(parts[1..], p);
      assert (parts + [p])[1..] == parts[1..] + [p];
    }
  }

  function Map<T, R>(f: T -> R, s: seq<T>): (r: seq<R>)
    ensures |r| == |s| && forall i :: 0 <= i < |s| ==> r[i] == f(s[i])
  {
    seq(|s|, i requires 0 <= i < |s| => f(s[i]))
  }

  /** Joining what `f` makes of the elements, with one more element at the end. */
  lemma JoinMapAppend<T, R>(f: T -> seq<R>, s: seq<T>, x: T)
    ensures Join(Map(f, s + [x])) == Join(Map(f, s)) + f(x)
  {
    assert Map(f, s + [x]) == Map(f, s) + [f(x)];
    JoinAppend(Map(f, s), f(x));
  }

  /** Applies `f` to every element; None if it fails on one of them. */
  function Traverse<T, R>(f: T -> Option<R>, s: seq<T>): Option<seq<R>> {
    if s == [] then Some([])
    else
      var first, others := f(s[0]), Traverse(f, s[1..]);
      if first.None? || others.None? then None else Some([first.value] + others.value)
  }

  lemma {:induction false} TraverseMap<T, R>(f: T -> Option<R>, g: R -> T, s: seq<R>)
    requires forall i :: 0 <= i < |s| ==> f(g(s[i])) == Some(s[i])
    ensures Traverse(f, Map(g, s)) == Some(s)
  {
    if s != [] {
      TraverseMap(f, g, s[1..]);
      assert Map(g, s)[1..] == Map(g, s[1..]);
      assert f(g(s[0])) == Some(s[0]) && [s[0]] + s[1..] == s;
    }
  }
}
