/** The line-matching rules shared by the folder-search scripts: which lines of a file
    hold the keyword, which of those are reported under the "match once" and
    "last match only" options, and how a stop request cuts a scan short. */
module Matching {
  import opened PyText

  /** One readable text as the reader delivers it: its lines in order (each with its
      line terminator, as Python's text iterator yields them) and, when `fails`, the
      exception raised instead of the line after the last one, with its message `error`. */
  datatype Stream = Stream(lines: seq<string>, fails: bool, error: string)

  /** The stop request (`threading.Event`): once set it stays set, so it is described by
      the first read of the flag, counted from 0 over the whole scan, that sees it set. */
  datatype Stop = Never | FromCheck(n: nat)

  /** Whether the `k`-th read of the flag sees it set. */
  predicate IsSet(stop: Stop, k: nat) {
    stop.FromCheck? && stop.n <= k
  }

  /** The stop flag stays set once it has been seen. */
  lemma SetStays(stop: Stop, j: nat, k: nat)
    requires j <= k && IsSet(stop, j)
    ensures IsSet(stop, k)
  {
  }

  /** The text the keyword is looked for in: the line itself, or its lower-cased form
      when the search ignores case. */
  function Folded(line: string, caseSensitive: bool): string {
    if caseSensitive then line else Lower(line)
  }

  /** The keyword as it is compared: lower-cased when the search ignores case. */
  function Needle(keyword: string, caseSensitive: bool): string {
    if caseSensitive then keyword else Lower(keyword)
  }

  predicate IsHit(line: string, needle: string, caseSensitive: bool) {
    Contains(Folded(line, caseSensitive), needle)
  }

  /** Indices (from 0) of the lines holding the keyword, in file order. */
  function Hits(lines: seq<string>, needle: string, cs: bool): (r: seq<nat>)
    ensures forall k :: 0 <= k < |r| ==> r[k] < |lines| && IsHit(lines[r[k]], needle, cs)
    decreases |lines|
  {
    if |lines| == 0 then []
    else
      var n := |lines| - 1;
      Hits(lines[..n], needle, cs) + (if IsHit(lines[n], needle, cs) then [n] else [])
  }

  /** The hits are exactly the lines holding the keyword, in increasing order. */
  lemma {:induction false} HitsShape(lines: seq<string>, needle: string, cs: bool)
    ensures forall i {:trigger IsHit(lines[i], needle, cs)} ::
              0 <= i < |lines| && IsHit(lines[i], needle, cs) ==> i in Hits(lines, needle, cs)
    ensures forall j, k :: 0 <= j < k < |Hits(lines, needle, cs)| ==> Hits(lines, needle, cs)[j] < Hits(lines, needle, cs)[k]
    decreases |lines|
  {
    if |lines| > 0 {
      var n := |lines| - 1;
      var front := Hits(lines[..n], needle, cs);
      HitsShape(lines[..n], needle, cs);
      var r := Hits(lines, needle, cs);
      assert r == front + (if IsHit(lines[n], needle, cs) then [n] else []);
      assert forall k :: 0 <= k < |front| ==> r[k] == front[k];
      assert forall i :: 0 <= i < n ==> lines[i] == lines[..n][i];
    }
  }

  /** Reading one more line adds that line's index when it is a hit. */
  lemma HitsStep(lines: seq<string>, i: nat, needle: string, cs: bool)
    requires i < |lines|
    ensures Hits(lines[..i + 1], needle, cs)
         == Hits(lines[..i], needle, cs) + (if IsHit(lines[i], needle, cs) then [i] else [])
  {
    assert lines[..i + 1][..i] == lines[..i];
  }

  /** A line that holds the keyword under case-sensitive matching holds it when case is
      ignored too. */
  lemma {:induction false} ContainsLower(s: string, sub: string)
    requires Contains(s, sub)
    ensures Contains(Lower(s), Lower(sub))
    decreases |s|
  {
    if sub <= s {
      assert Lower(sub) <= Lower(s);
    } else {
      ContainsLower(s[1..], sub);
      assert Lower(s)[1..] == Lower(s[1..]);
    }
  }

  lemma CaseSensitiveHitIsHit(line: string, keyword: string)
    requires IsHit(line, Needle(keyword, true), true)
    ensures IsHit(line, Needle(keyword, false), false)
  {
    ContainsLower(line, keyword);
  }

  /** The reporting options of one file's lines. */
  datatype Policy = Policy(matchOnce: bool, useLast: bool)

  /** The hits that are reported: the first one only ("match once", which also stops
      reading), the last one only ("last match only"), or all of them. */
  function Selected(hits: seq<nat>, p: Policy): (r: seq<nat>)
    ensures forall k :: 0 <= k < |r| ==> r[k] in hits
  {
    if p.matchOnce then (if hits == [] then [] else [hits[0]])
    else if p.useLast then (if hits == [] then [] else [hits[|hits| - 1]])
    else hits
  }

  /** "Match once" reports at most one line: the first line holding the keyword. */
  lemma MatchOnceIsFirst(lines: seq<string>, needle: string, cs: bool, p: Policy)
    requires p.matchOnce
    ensures var s := Selected(Hits(lines, needle, cs), p);
      |s| <= 1
      && (|s| == 1 <==> exists i :: 0 <= i < |lines| && IsHit(lines[i], needle, cs))
      && (|s| == 1 ==> s[0] < |lines| && IsHit(lines[s[0]], needle, cs)
                       && forall j :: 0 <= j < s[0] ==> !IsHit(lines[j], needle, cs))
  {
    var h := Hits(lines, needle, cs);
    HitsShape(lines, needle, cs);
    assert forall k :: 0 <= k < |h| ==> h[0] <= h[k];
  }

  /** "Last match only" reports at most one line: the last line holding the keyword. */
  lemma UseLastIsLast(lines: seq<string>, needle: string, cs: bool, p: Policy)
    requires !p.matchOnce && p.useLast
    ensures var s := Selected(Hits(lines, needle, cs), p);
      |s| <= 1
      && (|s| == 1 <==> exists i :: 0 <= i < |lines| && IsHit(lines[i], needle, cs))
      && (|s| == 1 ==> s[0] < |lines| && IsHit(lines[s[0]], needle, cs)
                       && forall j :: s[0] < j < |lines| ==> !IsHit(lines[j], needle, cs))
  {
    var h := Hits(lines, needle, cs);
    HitsShape(lines, needle, cs);
    assert forall k :: 0 <= k < |h| ==> h[k] <= h[|h| - 1];
  }

  /** Without either option every line holding the keyword is reported once, in file order. */
  lemma AllHitsReported(lines: seq<string>, needle: string, cs: bool, p: Policy)
    requires !p.matchOnce && !p.useLast
    ensures var s := Selected(Hits(lines, needle, cs), p);
      (forall i :: 0 <= i < |lines| ==> (i in s <==> IsHit(lines[i], needle, cs)))
      && (forall j, k :: 0 <= j < k < |s| ==> s[j] < s[k])
  {
    HitsShape(lines, needle, cs);
  }

  /** How many lines a scan that reads the stop flag before every line consumes, when its
      first read is the `t`-th one: all `n` unless the flag is seen set before that. */
  function Cut(n: nat, t: nat, stop: Stop): (c: nat)
    ensures c <= n
    ensures c < n ==> IsSet(stop, t + c)
    ensures forall k :: t <= k < t + c ==> !IsSet(stop, k)
  {
    match stop
    case Never => n
    case FromCheck(k) => if k <= t then 0 else if k < t + n then k - t else n
  }
}
