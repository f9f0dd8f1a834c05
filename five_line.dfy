/** Serch5line.py: the lines of one file holding both keywords, each reported with the
    (up to) five lines before it. */
module FiveLine {
  import opened PyText
  import opened Seqs
  import opened Matching

  /** How many lines before a hit its context holds at most. */
  const Back: nat := 5

  const Header: seq<string> := ["Match Line Number", "Context (Previous 5 lines + match)"]

  /** A result: the 1-based line number of the hit and its context lines. */
  datatype Match = Match(line: nat, context: seq<string>)

  predicate BothIn(line: string, word1: string, word2: string) {
    Contains(line, word1) && Contains(line, word2)
  }

  /** The context of the hit at index `i`: from `max(0, i - 5)` through `i`. */
  function Context(lines: seq<string>, i: nat): seq<string>
    requires i < |lines|
  {
    lines[(if i >= Back then i - Back else 0)..i + 1]
  }

  /** The results among the first `n` lines, in line order. */
  function Found(lines: seq<string>, word1: string, word2: string, n: nat): seq<Match>
    requires n <= |lines|
    decreases n
  {
    if n == 0 then []
    else Found(lines, word1, word2, n - 1)
         + (if BothIn(lines[n - 1], word1, word2) then [Match(n, Context(lines, n - 1))] else [])
  }

  /** A context holds one to six lines and ends with the hit line. */
  lemma ContextShape(lines: seq<string>, i: nat)
    requires i < |lines|
    ensures 1 <= |Context(lines, i)| <= Back + 1
    ensures Context(lines, i)[|Context(lines, i)| - 1] == lines[i]
  {
  }

  /** Every result is a line holding both words, with its context; by `ContextShape` that
      is one to six contiguous lines ending at the hit. */
  lemma {:induction false} FoundSound(lines: seq<string>, word1: string, word2: string, n: nat)
    requires n <= |lines|
    ensures forall k :: 0 <= k < |Found(lines, word1, word2, n)| ==>
      var m := Found(lines, word1, word2, n)[k];
      1 <= m.line <= n && BothIn(lines[m.line - 1], word1, word2)
      && m.context == Context(lines, m.line - 1)
    decreases n
  {
    if n > 0 {
      FoundSound(lines, word1, word2, n - 1);
      var front := Found(lines, word1, word2, n - 1);
      var r := Found(lines, word1, word2, n);
      assert r == front + (if BothIn(lines[n - 1], word1, word2) then [Match(n, Context(lines, n - 1))] else []);
      forall k | 0 <= k < |r|
        ensures 1 <= r[k].line <= n && BothIn(lines[r[k].line - 1], word1, word2)
          && r[k].context == Context(lines, r[k].line - 1)
      {
        if k < |front| {
          assert r[k] == front[k];
        }
      }
    }
  }

  /** Results come in strictly increasing line order, none beyond line `n`. */
  lemma {:induction false} FoundOrdered(lines: seq<string>, word1: string, word2: string, n: nat)
    requires n <= |lines|
    ensures forall k :: 0 <= k < |Found(lines, word1, word2, n)| ==> Found(lines, word1, word2, n)[k].line <= n
    ensures forall j, k :: 0 <= j < k < |Found(lines, word1, word2, n)| ==>
      Found(lines, word1, word2, n)[j].line < Found(lines, word1, word2, n)[k].line
    decreases n
  {
    if n > 0 {
      FoundOrdered(lines, word1, word2, n - 1);
      var front := Found(lines, word1, word2, n - 1);
      var r := Found(lines, word1, word2, n);
      assert r == front + (if BothIn(lines[n - 1], word1, word2) then [Match(n, Context(lines, n - 1))] else []);
      assert forall k :: 0 <= k < |front| ==> r[k] == front[k];
    }
  }

  /** Every line holding both words has its result. */
  lemma {:induction false} FoundComplete(lines: seq<string>, word1: string, word2: string, n: nat)
    requires n <= |lines|
    ensures forall i :: 0 <= i < n && BothIn(lines[i], word1, word2) ==>
      Match(i + 1, Context(lines, i)) in Found(lines, word1, word2, n)
    decreases n
  {
    if n > 0 {
      FoundComplete(lines, word1, word2, n - 1);
      var front := Found(lines, word1, word2, n - 1);
      var tail := if BothIn(lines[n - 1], word1, word2) then [Match(n, Context(lines, n - 1))] else [];
      assert Found(lines, word1, word2, n) == front + tail;
      forall i | 0 <= i < n && BothIn(lines[i], word1, word2)
        ensures Match(i + 1, Context(lines, i)) in front + tail
      {
        if i == n - 1 {
          assert tail[0] == Match(i + 1, Context(lines, i));
        }
      }
    }
  }

  /** The session: the results of the last successful search. */
  class Session {
    var results: seq<Match>

    constructor ()
      ensures results == []
    {
      results := [];
    }

    /** `search`: without a path or either word nothing is read; a file that cannot be
        read leaves the results as they were; otherwise they are cleared and refilled
        line by line. */
    method Search(path: string, word1: string, word2: string, file: Stream)
      modifies this
      ensures path == [] || word1 == [] || word2 == [] || file.fails ==> results == old(results)
      ensures !(path == [] || word1 == [] || word2 == [] || file.fails) ==>
        results == Found(file.lines, word1, word2, |file.lines|)
    {
      if path == "" || word1 == "" || word2 == "" {
        return;
      }
      if file.fails {
        return;
      }
      var lines := file.lines;
      results := [];
      var i := 0;
      while i < |lines|
        invariant i <= |lines| && results == Found(lines, word1, word2, i)
      {
        if Contains(lines[i], word1) && Contains(lines[i], word2) {
          var start := if i >= Back then i - Back else 0;
          results := results + [Match(i + 1, lines[start..i + 1])];
        }
        i := i + 1;
      }
    }

    /** `export_csv`: with no results nothing is written; otherwise the header and one
        row per result. */
    method Export() returns (table: seq<seq<string>>)
      ensures results == [] ==> table == []
      ensures results != [] ==> table == ExportRows(results)
    {
      if results == [] {
        return [];
      }
      table := ExportRows(results);
    }
  }

  /** The text of a context in the CSV file: the lines joined, each newline written as
      the two characters backslash and n. */
  function ContextText(context: seq<string>): string {
    ReplaceChar(Join(context, ""), '\n', "\\n")
  }

  /** `export_csv`: the header, then one row per result. */
  function ExportRows(results: seq<Match>): (t: seq<seq<string>>)
    ensures |t| == |results| + 1 && t[0] == Header
    ensures forall k :: 0 <= k < |results| ==> t[k + 1] == [NatToString(results[k].line), ContextText(results[k].context)]
    decreases |results|
  {
    if |results| == 0 then [Header]
    else ExportRows(results[..|results| - 1]) + [[NatToString(results[|results| - 1].line), ContextText(results[|results| - 1].context)]]
  }

  /** Every exported row keeps its context on one line and reads back its line number. */
  lemma ExportRowShape(results: seq<Match>, k: nat)
    requires k < |results|
    ensures var m := results[k]; var row := ExportRows(results)[k + 1];
      |row| == 2 && '\n' !in row[1] && DigitsValue(row[0]) == m.line
  {
    ReplaceCharRemoves(Join(results[k].context, ""), '\n', "\\n");
    NatToStringRoundTrip(results[k].line);
  }
}
