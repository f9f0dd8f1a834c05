/** List comprehensions with a condition (`[x for x in s if f(x)]`) and their laws. */
module Seqs {

  function Filter<T>(s: seq<T>, f: T -> bool): (r: seq<T>)
    ensures |r| <= |s|
    decreases |s|
  {
    if |s| == 0 then [] else Filter(s[..|s| - 1], f) + (if f(s[|s| - 1]) then [s[|s| - 1]] else [])
  }

  /** An element is kept iff it occurs in the input and passes the test. */
  lemma {:induction false} FilterMembership<T>(s: seq<T>, f: T -> bool, x: T)
    ensures x in Filter(s, f) <==> x in s && f(x)
    decreases |s|
  {
    if |s| > 0 {
      FilterMembership(s[..|s| - 1], f, x);
      assert s == s[..|s| - 1] + [s[|s| - 1]];
    }
  }

  /** Filtering distributes over concatenation, so the kept elements keep their order. */
  lemma {:induction false} FilterAppend<T>(a: seq<T>, b: seq<T>, f: T -> bool)
    ensures Filter(a + b, f) == Filter(a, f) + Filter(b, f)
    decreases |b|
  {
    if |b| == 0 {
      assert a + b == a;
    } else {
      var b' := b[..|b| - 1];
      assert (a + b)[..|a + b| - 1] == a + b';
      assert (a + b)[|a + b| - 1] == b[|b| - 1];
      FilterAppend(a, b', f);
      assert Filter(b, f) == Filter(b', f) + (if f(b[|b| - 1]) then [b[|b| - 1]] else []);
    }
  }

  /** `idx` lists, in increasing order, exactly the positions of `s` whose element
      passes `f`, and `r` holds the elements at those positions. */
  ghost predicate KeptAt<T>(s: seq<T>, f: T -> bool, r: seq<T>, idx: seq<nat>) {
    |idx| == |r|
    && (forall k :: 0 <= k < |idx| ==> idx[k] < |s| && s[idx[k]] == r[k] && f(r[k]))
    && (forall k, l :: 0 <= k < l < |idx| ==> idx[k] < idx[l])
    && (forall j :: 0 <= j < |s| && f(s[j]) ==> j in idx)
  }

  /** The filter keeps every passing element once, in the order of the input. */
  lemma {:induction false} FilterPositions<T>(s: seq<T>, f: T -> bool) returns (idx: seq<nat>)
    ensures KeptAt(s, f, Filter(s, f), idx)
    decreases |s|
  {
    if |s| == 0 {
      idx := [];
    } else {
      var n := |s| - 1;
      var idx0 := FilterPositions(s[..n], f);
      assert s == s[..n] + [s[n]];
      if f(s[n]) {
        idx := idx0 + [n];
        KeptTake(s[..n], s[n], f, Filter(s[..n], f), idx0);
      } else {
        idx := idx0;
        KeptSkip(s[..n], s[n], f, Filter(s[..n], f), idx0);
      }
    }
  }

  /** An element that fails the test adds no position. */
  lemma KeptSkip<T>(init: seq<T>, x: T, f: T -> bool, r: seq<T>, idx: seq<nat>)
    requires KeptAt(init, f, r, idx) && !f(x)
    ensures KeptAt(init + [x], f, r, idx)
  {
    var s := init + [x];
    forall k | 0 <= k < |idx|
      ensures idx[k] < |s| && s[idx[k]] == r[k]
    {
      assert s[idx[k]] == init[idx[k]];
    }
    forall j | 0 <= j < |s| && f(s[j])
      ensures j in idx
    {
      assert j < |init| && s[j] == init[j];
    }
  }

  /** An element that passes the test adds its own position last. */
  lemma KeptTake<T>(init: seq<T>, x: T, f: T -> bool, r: seq<T>, idx: seq<nat>)
    requires KeptAt(init, f, r, idx) && f(x)
    ensures KeptAt(init + [x], f, r + [x], idx + [|init|])
  {
    var s, r', idx' := init + [x], r + [x], idx + [|init|];
    forall k | 0 <= k < |idx'|
      ensures idx'[k] < |s| && s[idx'[k]] == r'[k] && f(r'[k])
    {
      if k < |idx| {
        assert idx'[k] == idx[k] && r'[k] == r[k] && s[idx[k]] == init[idx[k]];
      }
    }
    forall k, l | 0 <= k < l < |idx'|
      ensures idx'[k] < idx'[l]
    {
      assert idx'[k] == idx[k];
    }
    forall j | 0 <= j < |s| && f(s[j])
      ensures j in idx'
    {
      if j < |init| {
        assert s[j] == init[j] && j in idx;
      }
    }
  }

  lemma {:induction false} FilterAll<T>(s: seq<T>, f: T -> bool)
    requires forall i :: 0 <= i < |s| ==> f(s[i])
    ensures Filter(s, f) == s
    decreases |s|
  {
    if |s| > 0 {
      var n := |s| - 1;
      assert forall i :: 0 <= i < n ==> s[..n][i] == s[i];
      FilterAll(s[..n], f);
      assert s == s[..n] + [s[n]];
    }
  }

  lemma {:induction false} FilterNone<T>(s: seq<T>, f: T -> bool)
    requires forall i :: 0 <= i < |s| ==> !f(s[i])
    ensures Filter(s, f) == []
    decreases |s|
  {
    if |s| > 0 {
      var n := |s| - 1;
      assert forall i :: 0 <= i < n ==> s[..n][i] == s[i];
      FilterNone(s[..n], f);
    }
  }

  /** Number of elements passing a test. */
  function Count<T>(s: seq<T>, f: T -> bool): nat
    decreases |s|
  {
    if |s| == 0 then 0 else Count(s[..|s| - 1], f) + (if f(s[|s| - 1]) then 1 else 0)
  }

  /** At most every element passes. */
  lemma {:induction false} CountBound<T>(s: seq<T>, f: T -> bool)
    ensures Count(s, f) <= |s|
    decreases |s|
  {
    if |s| > 0 {
      CountBound(s[..|s| - 1], f);
    }
  }

  lemma {:induction false} CountAppend<T>(a: seq<T>, b: seq<T>, f: T -> bool)
    ensures Count(a + b, f) == Count(a, f) + Count(b, f)
    decreases |b|
  {
    if |b| == 0 {
      assert a + b == a;
    } else {
      var b' := b[..|b| - 1];
      assert (a + b)[..|a + b| - 1] == a + b';
      assert (a + b)[|a + b| - 1] == b[|b| - 1];
      CountAppend(a, b', f);
    }
  }

  lemma {:induction false} CountFilter<T>(s: seq<T>, f: T -> bool)
    ensures Count(s, f) == |Filter(s, f)|
    decreases |s|
  {
    if |s| > 0 {
      CountFilter(s[..|s| - 1], f);
    }
  }

  /** When every element passes, all of them are counted. */
  lemma {:induction false} CountAll<T>(s: seq<T>, f: T -> bool)
    requires forall i :: 0 <= i < |s| ==> f(s[i])
    ensures Count(s, f) == |s|
    decreases |s|
  {
    if |s| > 0 {
      var n := |s| - 1;
      assert forall i :: 0 <= i < n ==> s[..n][i] == s[i];
      CountAll(s[..n], f);
    }
  }

  /** Something is counted iff some element passes. */
  lemma {:induction false} CountPositive<T>(s: seq<T>, f: T -> bool)
    ensures Count(s, f) > 0 <==> exists i :: 0 <= i < |s| && f(s[i])
    decreases |s|
  {
    if |s| > 0 {
      var n := |s| - 1;
      CountPositive(s[..n], f);
      if Count(s[..n], f) > 0 {
        var i :| 0 <= i < n && f(s[..n][i]);
        assert f(s[i]);
      } else if !f(s[n]) {
        forall i | 0 <= i < |s|
          ensures !f(s[i])
        {
          if i < n {
            assert s[i] == s[..n][i];
          }
        }
      }
    }
  }

  /** A passing element makes the count of the prefix ending at it exceed the count of
      every shorter prefix. */
  lemma CountGrows<T>(s: seq<T>, f: T -> bool, j: nat, k: nat)
    requires j < k < |s| && f(s[k])
    ensures Count(s[..j + 1], f) < Count(s[..k + 1], f)
  {
    assert s[..k] == s[..j + 1] + s[j + 1..k];
    CountAppend(s[..j + 1], s[j + 1..k], f);
    assert s[..k + 1][..k] == s[..k];
  }

  lemma AppendAssoc<T>(a: seq<T>, b: seq<T>, c: seq<T>)
    ensures a + b + c == a + (b + c)
  {
  }

  function Min(a: int, b: int): int {
    if a <= b then a else b
  }

  /** The first `n` elements, `s[:n]` in Python (which clamps `n`). */
  function Take<T>(s: seq<T>, n: nat): (r: seq<T>)
    ensures |r| == Min(n, |s|)
    ensures r <= s
  {
    if n <= |s| then s[..n] else s
  }
}

/** `os.path` string operations, Windows style: both `/` and `\` separate components.
    Drive letters are not modelled. */
module PyPath {
  import opened PyText

  predicate IsSep(c: char) {
    c == '/' || c == '\\'
  }

  /** Index just past the last separator (0 when there is none). */
  function NameStart(p: string): (i: nat)
    ensures i <= |p|
    decreases |p|
  {
    if |p| == 0 then 0 else if IsSep(p[|p| - 1]) then |p| else NameStart(p[..|p| - 1])
  }

  lemma {:induction false} NameStartBounds(p: string)
    ensures var i := NameStart(p);
      (i > 0 ==> IsSep(p[i - 1])) && forall j :: i <= j < |p| ==> !IsSep(p[j])
    decreases |p|
  {
    if |p| > 0 && !IsSep(p[|p| - 1]) {
      NameStartBounds(p[..|p| - 1]);
    }
  }

  /** `os.path.basename(p)`: the text after the last separator. */
  function Basename(p: string): string {
    p[NameStart(p)..]
  }

  lemma BasenameShape(p: string)
    ensures var b := Basename(p);
      (forall j :: 0 <= j < |b| ==> !IsSep(b[j])) && |b| <= |p| && b == p[|p| - |b|..]
  {
    NameStartBounds(p);
  }

  /** Index of the last `.` in `p`, or -1. */
  function LastDot(p: string): (i: int)
    ensures -1 <= i < |p|
    ensures i >= 0 ==> p[i] == '.'
    ensures forall j :: i < j < |p| ==> p[j] != '.'
    decreases |p|
  {
    if |p| == 0 then -1 else if p[|p| - 1] == '.' then |p| - 1 else LastDot(p[..|p| - 1])
  }

  /** Whether the base name before position `dot` holds something other than dots. */
  predicate HasStem(p: string, start: nat, dot: nat)
    requires start <= dot <= |p|
  {
    exists j :: start <= j < dot && p[j] != '.'
  }

  /** `os.path.splitext(p)`: the extension starts at the last dot of the base name,
      unless every character before that dot in the base name is a dot. */
  function SplitExt(p: string): (r: (string, string))
    ensures r.0 + r.1 == p
    ensures r.1 == [] || (r.1[0] == '.' && '.' !in r.1[1..] && forall j :: 0 <= j < |r.1| ==> !IsSep(r.1[j]))
  {
    var s := NameStart(p);
    var d := LastDot(p);
    NameStartBounds(p);
    if d >= s && HasStem(p, s, d) then
      assert p == p[..d] + p[d..];
      (p[..d], p[d..])
    else (p, "")
  }
}
