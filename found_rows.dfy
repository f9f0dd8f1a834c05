/** The search loop that writes each result row the moment it is found, shared by
    FolderSearchV2.py, FolderSearchV3.py, text_search_app.py, FolderSerach10K.py and
    FolderSerach10KMultiSerach.py. The versions differ only in the line test, the
    reporting options they offer, whether the preview is capped at 1000 rows and how
    often progress is posted; those are the parameters of the `Searcher` below. */
module FoundRows {
  import opened Opt
  import opened PyText
  import opened Seqs
  import opened Matching

  const PreviewCap: nat := 1000

  /** One result row: file name, line number (from 1; 0 marks a read error), text. */
  datatype Row = Row(name: string, line: nat, text: string)

  /** A file of the walk: its full path, its name (the last path component, which is what
      the rows show) and its text as the reader delivers it. */
  datatype File = File(path: string, name: string, content: Stream)

  // ---------------------------------------------------------------- hits

  /** Indices (from 0) of the first `n` lines that pass the line test, in file order. */
  function HitsOf(lines: seq<string>, hit: string -> bool, n: nat): (r: seq<nat>)
    requires n <= |lines|
    ensures forall k :: 0 <= k < |r| ==> r[k] < n && hit(lines[r[k]])
    decreases n
  {
    if n == 0 then [] else HitsOf(lines, hit, n - 1) + (if hit(lines[n - 1]) then [n - 1] else [])
  }

  /** `h` lists, in increasing order, exactly the indices below `n` of the lines that pass
      the test. */
  ghost predicate HitList(lines: seq<string>, hit: string -> bool, n: nat, h: seq<nat>) {
    n <= |lines|
    && (forall k :: 0 <= k < |h| ==> h[k] < n && hit(lines[h[k]]))
    && (forall i :: 0 <= i < n && hit(lines[i]) ==> i in h)
    && (forall j, k :: 0 <= j < k < |h| ==> h[j] < h[k])
  }

  lemma {:induction false} HitsOfShape(lines: seq<string>, hit: string -> bool, n: nat)
    requires n <= |lines|
    ensures HitList(lines, hit, n, HitsOf(lines, hit, n))
    decreases n
  {
    if n > 0 {
      HitsOfShape(lines, hit, n - 1);
      var front := HitsOf(lines, hit, n - 1);
      var r := HitsOf(lines, hit, n);
      assert forall k :: 0 <= k < |front| ==> r[k] == front[k];
    }
  }

  /** One more line read: its index joins the hits when it passes the test. */
  lemma HitsOfNext(lines: seq<string>, hit: string -> bool, i: nat)
    requires i < |lines|
    ensures HitsOf(lines, hit, i + 1) == HitsOf(lines, hit, i) + (if hit(lines[i]) then [i] else [])
  {
  }

  /** The hits among fewer lines are a prefix of the hits among more. */
  lemma {:induction false} HitsOfPrefix(lines: seq<string>, hit: string -> bool, i: nat, n: nat)
    requires i <= n <= |lines|
    ensures HitsOf(lines, hit, i) <= HitsOf(lines, hit, n)
    decreases n - i
  {
    if i < n {
      HitsOfPrefix(lines, hit, i, n - 1);
    }
  }

  /** Under a single-keyword test the hits are those of FolderSearchV6Zip.py's engine. */
  lemma {:induction false} HitsOfIsHits(lines: seq<string>, hit: string -> bool, needle: string, cs: bool, n: nat)
    requires n <= |lines|
    requires forall l :: hit(l) == IsHit(l, needle, cs)
    ensures HitsOf(lines, hit, n) == Hits(lines[..n], needle, cs)
    decreases n
  {
    if n > 0 {
      HitsOfIsHits(lines, hit, needle, cs, n - 1);
      assert lines[..n][..n - 1] == lines[..n - 1];
      assert lines[..n][n - 1] == lines[n - 1];
    }
  }

  /** The single-keyword line test: the keyword, lower-cased unless the search is
      case-sensitive, is a substring of the line, lower-cased likewise. */
  function KeywordTest(keyword: string, cs: bool): string -> bool {
    l => IsHit(l, Needle(keyword, cs), cs)
  }

  // ---------------------------------------------------------------- one file

  /** The row of the hit on line index `i`: its 1-based number and its stripped text. */
  function HitRow(name: string, lines: seq<string>, i: nat): Row {
    Row(name, i + 1, if i < |lines| then Strip(lines[i]) else "")
  }

  function HitRows(name: string, lines: seq<string>, idx: seq<nat>): (r: seq<Row>)
    ensures |r| == |idx|
    decreases |idx|
  {
    if |idx| == 0 then []
    else HitRows(name, lines, idx[..|idx| - 1]) + [HitRow(name, lines, idx[|idx| - 1])]
  }

  lemma {:induction false} HitRowsAt(name: string, lines: seq<string>, idx: seq<nat>)
    ensures forall k :: 0 <= k < |idx| ==> HitRows(name, lines, idx)[k] == HitRow(name, lines, idx[k])
    decreases |idx|
  {
    if |idx| > 0 {
      HitRowsAt(name, lines, idx[..|idx| - 1]);
    }
  }

  lemma HitRowsSnoc(name: string, lines: seq<string>, idx: seq<nat>, i: nat)
    ensures HitRows(name, lines, idx + [i]) == HitRows(name, lines, idx) + [HitRow(name, lines, i)]
  {
    assert (idx + [i])[..|idx|] == idx;
  }

  /** The row written when reading the file raises: line 0 and the message. */
  function ErrorRow(name: string, error: string): Row {
    Row(name, 0, "[Error: " + error + "]")
  }

  predicate IsHitRow(r: Row) {
    r.line > 0
  }

  /** The hits whose rows are written. Under "match once" only the first (reading stops
      there). Under "last match only" the last, which is written after the reading loop
      and so is lost when reading raises. Otherwise all of them. */
  function Kept(h: seq<nat>, fails: bool, p: Policy): seq<nat> {
    if p.matchOnce then (if h == [] then [] else [h[0]])
    else if p.useLast then (if fails || h == [] then [] else [h[|h| - 1]])
    else h
  }

  /** Apart from the lost "last match only" row, the written hits are those the policy
      selects. */
  lemma KeptIsSelected(h: seq<nat>, fails: bool, p: Policy)
    ensures Kept(h, fails, p) == if !p.matchOnce && p.useLast && fails then [] else Selected(h, p)
  {
  }

  /** Whether the read error reaches the handler: "match once" leaves the file at its
      first hit, before any later error. */
  predicate Raised(h: seq<nat>, fails: bool, p: Policy) {
    fails && !(p.matchOnce && h != [])
  }

  /** The rows of a file whose hits are `h`, in the order they are written. */
  function RowsFor(f: File, h: seq<nat>, p: Policy): seq<Row> {
    HitRows(f.name, f.content.lines, Kept(h, f.content.fails, p))
      + (if Raised(h, f.content.fails, p) then [ErrorRow(f.name, f.content.error)] else [])
  }

  /** The rows one file adds. */
  function FileRows(f: File, hit: string -> bool, p: Policy): seq<Row> {
    RowsFor(f, HitsOf(f.content.lines, hit, |f.content.lines|), p)
  }

  /** What one file adds to the match count: one per hit row written. */
  function FileCount(f: File, hit: string -> bool, p: Policy): nat {
    |Kept(HitsOf(f.content.lines, hit, |f.content.lines|), f.content.fails, p)|
  }

  lemma {:induction false} HitRowsCount(name: string, lines: seq<string>, idx: seq<nat>)
    ensures Count(HitRows(name, lines, idx), IsHitRow) == |idx|
  {
    HitRowsAt(name, lines, idx);
    CountAll(HitRows(name, lines, idx), IsHitRow);
  }

  /** The match count of a file is the number of its hit rows: the error row is not
      counted, and there is at most one, written last. */
  lemma FileCountIsHitRows(f: File, hit: string -> bool, p: Policy)
    ensures FileCount(f, hit, p) == Count(FileRows(f, hit, p), IsHitRow)
    ensures |FileRows(f, hit, p)| - FileCount(f, hit, p) <= 1
  {
    var h := HitsOf(f.content.lines, hit, |f.content.lines|);
    var kept := Kept(h, f.content.fails, p);
    var tail := if Raised(h, f.content.fails, p) then [ErrorRow(f.name, f.content.error)] else [];
    HitRowsCount(f.name, f.content.lines, kept);
    CountAppend(HitRows(f.name, f.content.lines, kept), tail, IsHitRow);
    assert Count(tail, IsHitRow) == 0 by {
      if tail != [] {
        assert tail[..0] == [];
      }
    }
  }

  /** The kept hits are hits, in increasing order. */
  lemma KeptAreHits(h: seq<nat>, fails: bool, p: Policy)
    ensures forall k :: 0 <= k < |Kept(h, fails, p)| ==> Kept(h, fails, p)[k] in h
    ensures (forall j, k :: 0 <= j < k < |h| ==> h[j] < h[k]) ==>
      forall j, k :: 0 <= j < k < |Kept(h, fails, p)| ==> Kept(h, fails, p)[j] < Kept(h, fails, p)[k]
  {
  }

  /** The rows of a file: the kept hits' rows, then the error row if the read error is
      raised. */
  lemma RowsForAt(f: File, h: seq<nat>, p: Policy)
    ensures var rows := RowsFor(f, h, p); var kept := Kept(h, f.content.fails, p);
      |rows| == |kept| + (if Raised(h, f.content.fails, p) then 1 else 0)
      && (forall k :: 0 <= k < |kept| ==> rows[k] == HitRow(f.name, f.content.lines, kept[k]))
      && (Raised(h, f.content.fails, p) ==> rows[|kept|] == ErrorRow(f.name, f.content.error))
  {
    HitRowsAt(f.name, f.content.lines, Kept(h, f.content.fails, p));
  }

  /** Every written row is either the stripped text of a passing line, under its 1-based
      number, or, as the last row only, the error row of a failing read. */
  lemma FileRowsAreHits(f: File, hit: string -> bool, p: Policy)
    ensures var rows := FileRows(f, hit, p); var lines := f.content.lines;
      forall k :: 0 <= k < |rows| ==>
        if rows[k].line > 0 then
          rows[k].line <= |lines| && hit(lines[rows[k].line - 1])
          && rows[k] == HitRow(f.name, lines, rows[k].line - 1)
        else
          k == |rows| - 1 && f.content.fails && rows[k] == ErrorRow(f.name, f.content.error)
  {
    var h := HitsOf(f.content.lines, hit, |f.content.lines|);
    HitsOfShape(f.content.lines, hit, |f.content.lines|);
    KeptAreHits(h, f.content.fails, p);
    RowsForAt(f, h, p);
  }

  /** Hit rows come in increasing line order. */
  lemma FileRowsIncrease(f: File, hit: string -> bool, p: Policy)
    ensures var rows := FileRows(f, hit, p);
      forall j, k :: 0 <= j < k < |rows| && rows[k].line > 0 ==> rows[j].line < rows[k].line
  {
    var h := HitsOf(f.content.lines, hit, |f.content.lines|);
    HitsOfShape(f.content.lines, hit, |f.content.lines|);
    KeptAreHits(h, f.content.fails, p);
    RowsForAt(f, h, p);
  }

  /** "Match once" keeps the first hit, if any. */
  lemma KeptFirst(lines: seq<string>, hit: string -> bool, h: seq<nat>, fails: bool, p: Policy)
    requires p.matchOnce && HitList(lines, hit, |lines|, h)
    ensures |Kept(h, fails, p)| <= 1
    ensures |Kept(h, fails, p)| == 1 <==> exists i :: 0 <= i < |lines| && hit(lines[i])
    ensures |Kept(h, fails, p)| == 1 ==> forall j :: 0 <= j < Kept(h, fails, p)[0] ==> !hit(lines[j])
  {
    if h != [] {
      assert forall k :: 0 <= k < |h| ==> h[0] <= h[k];
    } else {
      assert forall i :: 0 <= i < |lines| ==> !hit(lines[i]);
    }
  }

  /** "Match once" counts at most one hit, and one iff some line passes. */
  lemma MatchOnceCount(f: File, hit: string -> bool, p: Policy)
    requires p.matchOnce
    ensures FileCount(f, hit, p) <= 1
    ensures FileCount(f, hit, p) == 1 <==> exists i :: 0 <= i < |f.content.lines| && hit(f.content.lines[i])
  {
    var lines := f.content.lines;
    HitsOfShape(lines, hit, |lines|);
    KeptFirst(lines, hit, HitsOf(lines, hit, |lines|), f.content.fails, p);
  }

  /** "Match once": the one hit row is the first passing line and nothing follows it; with
      no hit a read error is reported. */
  lemma MatchOnceRows(f: File, hit: string -> bool, p: Policy)
    requires p.matchOnce
    ensures var rows := FileRows(f, hit, p); var lines := f.content.lines;
      (FileCount(f, hit, p) == 1 ==>
            |rows| == 1 && 1 <= rows[0].line <= |lines| && hit(lines[rows[0].line - 1])
            && forall j :: 0 <= j < rows[0].line - 1 ==> !hit(lines[j]))
      && (FileCount(f, hit, p) == 0 ==>
            rows == (if f.content.fails then [ErrorRow(f.name, f.content.error)] else []))
  {
    var lines := f.content.lines;
    var h := HitsOf(lines, hit, |lines|);
    HitsOfShape(lines, hit, |lines|);
    KeptFirst(lines, hit, h, f.content.fails, p);
    RowsForAt(f, h, p);
  }

  /** "Last match only" keeps the last hit, if any, unless the read fails. */
  lemma KeptLast(lines: seq<string>, hit: string -> bool, h: seq<nat>, fails: bool, p: Policy)
    requires !p.matchOnce && p.useLast && HitList(lines, hit, |lines|, h)
    ensures |Kept(h, fails, p)| <= 1
    ensures fails ==> Kept(h, fails, p) == []
    ensures !fails ==> (|Kept(h, fails, p)| == 1 <==> exists i :: 0 <= i < |lines| && hit(lines[i]))
    ensures |Kept(h, fails, p)| == 1 ==> forall j :: Kept(h, fails, p)[0] < j < |lines| ==> !hit(lines[j])
  {
    if h != [] {
      assert forall k :: 0 <= k < |h| ==> h[k] <= h[|h| - 1];
    } else {
      assert forall i :: 0 <= i < |lines| ==> !hit(lines[i]);
    }
  }

  /** "Last match only": a failing read yields the error row alone; otherwise at most one
      row, present iff some line passes, and it is the last passing line. */
  lemma UseLastRows(f: File, hit: string -> bool, p: Policy)
    requires !p.matchOnce && p.useLast
    ensures var rows := FileRows(f, hit, p); var lines := f.content.lines;
      FileCount(f, hit, p) <= 1
      && (f.content.fails ==> rows == [ErrorRow(f.name, f.content.error)])
      && (!f.content.fails ==>
            (|rows| == 1 <==> exists i :: 0 <= i < |lines| && hit(lines[i]))
            && |rows| <= 1
            && (|rows| == 1 ==>
                  1 <= rows[0].line <= |lines| && hit(lines[rows[0].line - 1])
                  && forall j :: rows[0].line <= j < |lines| ==> !hit(lines[j])))
  {
    var lines := f.content.lines;
    var h := HitsOf(lines, hit, |lines|);
    HitsOfShape(lines, hit, |lines|);
    KeptLast(lines, hit, h, f.content.fails, p);
    RowsForAt(f, h, p);
  }

  /** Without either option every hit is counted and written, and a failing read adds the
      error row after them. */
  lemma AllHitsLength(f: File, hit: string -> bool, p: Policy)
    requires !p.matchOnce && !p.useLast
    ensures |FileRows(f, hit, p)| == FileCount(f, hit, p) + (if f.content.fails then 1 else 0)
    ensures FileCount(f, hit, p) == |HitsOf(f.content.lines, hit, |f.content.lines|)|
  {
  }

  /** Without either option every passing line yields a row among the counted ones, and
      every counted row is that of a passing line. */
  lemma AllHitsRows(f: File, hit: string -> bool, p: Policy)
    requires !p.matchOnce && !p.useLast
    ensures var rows := FileRows(f, hit, p); var lines := f.content.lines;
      forall i :: 0 <= i < |lines| ==>
        (hit(lines[i]) <==> exists k :: 0 <= k < FileCount(f, hit, p) && rows[k] == HitRow(f.name, lines, i))
  {
    var lines := f.content.lines;
    var h := HitsOf(lines, hit, |lines|);
    HitsOfShape(lines, hit, |lines|);
    assert Kept(h, f.content.fails, p) == h;
    RowsForAt(f, h, p);
    AllHitsAt(f.name, lines, hit, h, FileRows(f, hit, p));
  }

  lemma AllHitsAt(name: string, lines: seq<string>, hit: string -> bool, h: seq<nat>, rows: seq<Row>)
    requires HitList(lines, hit, |lines|, h) && |h| <= |rows|
    requires forall k :: 0 <= k < |h| ==> rows[k] == HitRow(name, lines, h[k])
    ensures forall i :: 0 <= i < |lines| ==>
      (hit(lines[i]) <==> exists k :: 0 <= k < |h| && rows[k] == HitRow(name, lines, i))
  {
    forall i | 0 <= i < |lines|
      ensures hit(lines[i]) <==> exists k :: 0 <= k < |h| && rows[k] == HitRow(name, lines, i)
    {
      if hit(lines[i]) {
        var k :| 0 <= k < |h| && h[k] == i;
        assert rows[k] == HitRow(name, lines, i);
      }
    }
  }

  // ---------------------------------------------------------------- the file loop

  /** What one file adds: its rows and its contribution to the match count. */
  datatype Outcome = Outcome(rows: seq<Row>, count: nat)

  function FileStep(hit: string -> bool, p: Policy): File -> Outcome {
    f => Outcome(FileRows(f, hit, p), FileCount(f, hit, p))
  }

  /** The rows and the count after the first `k` files of the list, each file adding what
      `step` says. */
  function RunTo(step: File -> Outcome, files: seq<File>, k: nat): Outcome
    requires k <= |files|
    decreases k
  {
    if k == 0 then Outcome([], 0)
    else
      var r := RunTo(step, files, k - 1);
      Outcome(r.rows + step(files[k - 1]).rows, r.count + step(files[k - 1]).count)
  }

  /** One more file under the tool's own step adds that file's rows and count. */
  lemma RunToNext(files: seq<File>, hit: string -> bool, p: Policy, i: nat)
    requires i < |files|
    ensures RunTo(FileStep(hit, p), files, i + 1).rows
         == RunTo(FileStep(hit, p), files, i).rows + FileRows(files[i], hit, p)
    ensures RunTo(FileStep(hit, p), files, i + 1).count
         == RunTo(FileStep(hit, p), files, i).count + FileCount(files[i], hit, p)
  {
  }

  /** How many files are searched: the stop flag is read before each file. */
  function Processed(files: seq<File>, stop: Stop): nat {
    Cut(|files|, 0, stop)
  }

  /** The file loop, at file `i` and not past the files searched, goes on to the next file
      when the flag is clear and stops exactly at the files searched otherwise. */
  lemma ProcessedStep(files: seq<File>, stop: Stop, i: nat)
    requires i <= Processed(files, stop)
    ensures i < |files| && !IsSet(stop, i) ==> i + 1 <= Processed(files, stop)
    ensures i == |files| || IsSet(stop, i) ==> i == Processed(files, stop)
  {
  }

  function Search(files: seq<File>, hit: string -> bool, p: Policy, stop: Stop): Outcome {
    RunTo(FileStep(hit, p), files, Processed(files, stop))
  }

  /** Each file's count is the number of its hit rows. */
  ghost predicate CountsHitRows(step: File -> Outcome) {
    forall f :: step(f).count == Count(step(f).rows, IsHitRow)
  }

  lemma FileStepCounts(hit: string -> bool, p: Policy)
    ensures CountsHitRows(FileStep(hit, p))
  {
    forall f {
      FileCountIsHitRows(f, hit, p);
    }
  }

  lemma {:induction false} RunToCount(step: File -> Outcome, files: seq<File>, k: nat)
    requires k <= |files| && CountsHitRows(step)
    ensures RunTo(step, files, k).count == Count(RunTo(step, files, k).rows, IsHitRow)
    decreases k
  {
    if k > 0 {
      RunToCount(step, files, k - 1);
      CountAppend(RunTo(step, files, k - 1).rows, step(files[k - 1]).rows, IsHitRow);
    }
  }

  /** The reported match count is the number of hit rows written; error rows are not
      counted. */
  lemma SearchCount(files: seq<File>, hit: string -> bool, p: Policy, stop: Stop)
    ensures Search(files, hit, p, stop).count == Count(Search(files, hit, p, stop).rows, IsHitRow)
  {
    FileStepCounts(hit, p);
    RunToCount(FileStep(hit, p), files, Processed(files, stop));
  }

  lemma PrefixExtend<T>(a: seq<T>, b: seq<T>, c: seq<T>)
    requires a <= b
    ensures a <= b + c
  {
    assert forall i :: 0 <= i < |a| ==> (b + c)[i] == b[i];
  }

  lemma {:induction false} RunToPrefix(step: File -> Outcome, files: seq<File>, j: nat, k: nat)
    requires j <= k <= |files|
    ensures RunTo(step, files, j).rows <= RunTo(step, files, k).rows
    decreases k - j
  {
    if j < k {
      RunToPrefix(step, files, j, k - 1);
      PrefixExtend(RunTo(step, files, j).rows, RunTo(step, files, k - 1).rows, step(files[k - 1]).rows);
    }
  }

  /** Since the stop flag is read only between files, a stopped search has written a
      prefix of the rows of the full search, and without a stop every file is searched. */
  lemma CancelledIsPrefix(files: seq<File>, hit: string -> bool, p: Policy, stop: Stop)
    ensures Search(files, hit, p, stop).rows <= Search(files, hit, p, Never).rows
    ensures Processed(files, Never) == |files|
  {
    RunToPrefix(FileStep(hit, p), files, Processed(files, stop), |files|);
  }

  // ---------------------------------------------------------------- progress

  /** When the progress bar is updated, by the 1-based index of the file just searched. */
  datatype Cadence = EveryFile | EveryTenth | TenthOrLast

  predicate Posts(c: Cadence, idx: nat, total: nat) {
    match c
    case EveryFile => true
    case EveryTenth => idx % 10 == 0
    case TenthOrLast => idx % 10 == 0 || idx == total
  }

  /** The progress values posted after the first `k` files. */
  function PostedTo(c: Cadence, k: nat, total: nat): seq<nat>
    decreases k
  {
    if k == 0 then [] else PostedTo(c, k - 1, total) + (if Posts(c, k, total) then [k] else [])
  }

  lemma {:induction false} PostedBounds(c: Cadence, k: nat, total: nat)
    ensures forall j :: 0 <= j < |PostedTo(c, k, total)| ==> 1 <= PostedTo(c, k, total)[j] <= k
    ensures forall i, j :: 0 <= i < j < |PostedTo(c, k, total)| ==> PostedTo(c, k, total)[i] < PostedTo(c, k, total)[j]
    decreases k
  {
    if k > 0 {
      PostedBounds(c, k - 1, total);
    }
  }

  /** With the "every tenth file" cadence the bar last shows the largest multiple of 10
      reached, so it stays below the total unless the total is a multiple of 10. */
  lemma {:induction false} TenthProgress(k: nat, total: nat)
    ensures k < 10 ==> PostedTo(EveryTenth, k, total) == []
    ensures k >= 10 ==> (PostedTo(EveryTenth, k, total) != []
                         && PostedTo(EveryTenth, k, total)[|PostedTo(EveryTenth, k, total)| - 1] == k - k % 10)
    decreases k
  {
    if k > 0 {
      TenthProgress(k - 1, total);
    }
  }

  /** The cadences that also post the last file end with the bar full. */
  lemma FullProgress(c: Cadence, total: nat)
    requires c != EveryTenth && total > 0
    ensures PostedTo(c, total, total) != []
    ensures PostedTo(c, total, total)[|PostedTo(c, total, total)| - 1] == total
  {
  }

  // ---------------------------------------------------------------- preview

  /** The preview list: capped at the first 1000 rows, or every row when uncapped. */
  function PreviewOf(rows: seq<Row>, capped: bool): seq<Row> {
    if capped && |rows| > PreviewCap then rows[..PreviewCap] else rows
  }

  /** The preview is a prefix of the rows, at most 1000 long when capped, and all of them
      when they are few or the preview is uncapped. */
  lemma PreviewShape(rows: seq<Row>, capped: bool)
    ensures PreviewOf(rows, capped) <= rows
    ensures capped ==> |PreviewOf(rows, capped)| <= PreviewCap
    ensures |rows| <= PreviewCap || !capped ==> PreviewOf(rows, capped) == rows
  {
  }

  lemma PreviewStep(rows: seq<Row>, r: Row, capped: bool)
    ensures PreviewOf(rows + [r], capped)
         == if !capped || |PreviewOf(rows, capped)| < PreviewCap then PreviewOf(rows, capped) + [r]
            else PreviewOf(rows, capped)
  {
    if capped && |rows| >= PreviewCap {
      assert (rows + [r])[..PreviewCap] == rows[..PreviewCap];
    }
  }

  // ---------------------------------------------------------------- the reading loop

  /** The hits whose rows the reading loop has written: all of them, except under "last
      match only", whose row is written after the loop. */
  function Written(h: seq<nat>, p: Policy): seq<nat> {
    if !p.matchOnce && p.useLast then [] else h
  }

  /** What is written after a reading loop that ended with the hits `h`: nothing if "match
      once" left at a hit, else the error row if reading raised, else the deferred "last
      match only" row. */
  function AfterLoop(f: File, h: seq<nat>, p: Policy): seq<Row> {
    if p.matchOnce && h != [] then []
    else if f.content.fails then [ErrorRow(f.name, f.content.error)]
    else if !p.matchOnce && p.useLast && h != [] then [HitRow(f.name, f.content.lines, h[|h| - 1])]
    else []
  }

  /** The state of the reading loop after `i` lines: `h` the hits so far, `written` and
      `added` the rows written and counted so far, `last` the remembered "last match only"
      hit, `matched` whether "match once" has found its hit. */
  ghost predicate ScanInv(f: File, hit: string -> bool, p: Policy, i: nat, h: seq<nat>,
                          written: seq<Row>, added: nat, last: Option<nat>, matched: bool)
  {
    i <= |f.content.lines| && h == HitsOf(f.content.lines, hit, i)
    && (matched <==> p.matchOnce && h != [])
    && (p.matchOnce ==> |h| <= 1)
    && written == HitRows(f.name, f.content.lines, Written(h, p))
    && added == |Written(h, p)|
    && last == (if !p.matchOnce && p.useLast && h != [] then Some(h[|h| - 1]) else None)
  }

  /** Line `i` read and not a hit: only the position moves. */
  lemma ScanMiss(f: File, hit: string -> bool, p: Policy, i: nat, h: seq<nat>,
                 written: seq<Row>, added: nat, last: Option<nat>)
    requires ScanInv(f, hit, p, i, h, written, added, last, false)
    requires i < |f.content.lines| && !hit(f.content.lines[i])
    ensures ScanInv(f, hit, p, i + 1, h, written, added, last, false)
  {
  }

  /** Line `i` read and a hit, without "last match only": its row is written and counted at
      once, and "match once" stops at it. */
  lemma ScanHit(f: File, hit: string -> bool, p: Policy, i: nat, h: seq<nat>,
                written: seq<Row>, added: nat, last: Option<nat>)
    requires ScanInv(f, hit, p, i, h, written, added, last, false)
    requires i < |f.content.lines| && hit(f.content.lines[i]) && !(!p.matchOnce && p.useLast)
    ensures ScanInv(f, hit, p, i + 1, h + [i], written + [HitRow(f.name, f.content.lines, i)],
                    added + 1, last, p.matchOnce)
  {
    HitRowsSnoc(f.name, f.content.lines, h, i);
  }

  /** Line `i` read and a hit under "last match only": it is remembered, not written. */
  lemma ScanDefer(f: File, hit: string -> bool, p: Policy, i: nat, h: seq<nat>,
                  written: seq<Row>, added: nat, last: Option<nat>)
    requires ScanInv(f, hit, p, i, h, written, added, last, false)
    requires i < |f.content.lines| && hit(f.content.lines[i]) && !p.matchOnce && p.useLast
    ensures ScanInv(f, hit, p, i + 1, h + [i], written, added, Some(i), false)
  {
  }

  /** The rows written during and after the reading loop are the file's rows, whether the
      loop read every line or left at the first hit under "match once". */
  lemma ScanEnd(f: File, hit: string -> bool, p: Policy, i: nat, h: seq<nat>,
                written: seq<Row>, added: nat, last: Option<nat>, matched: bool)
    requires ScanInv(f, hit, p, i, h, written, added, last, matched)
    requires i == |f.content.lines| || matched
    ensures FileRows(f, hit, p) == written + AfterLoop(f, h, p)
    ensures FileCount(f, hit, p)
         == added + (if !p.matchOnce && p.useLast && !f.content.fails && h != [] then 1 else 0)
  {
    var lines := f.content.lines;
    var full := HitsOf(lines, hit, |lines|);
    HitsOfPrefix(lines, hit, i, |lines|);
    if p.matchOnce && h != [] {
      assert full[0] == h[0];
      assert Kept(full, f.content.fails, p) == h;
    } else {
      assert h == full;
      if !p.matchOnce && p.useLast && !f.content.fails && h != [] {
        assert [h[|h| - 1]][..0] == [];
      }
    }
  }

  // ---------------------------------------------------------------- the searcher

  /** The state of one search: the rows written to the CSV file (or, for the 10K tools,
      the results list), the preview list, the match count and the progress values posted.
      The constants are what the tool fixes for the search. */
  class Searcher {
    const hit: string -> bool
    const policy: Policy
    const capped: bool
    const cadence: Cadence
    const stop: Stop
    var rows: seq<Row>
    var preview: seq<Row>
    var count: nat
    var progress: seq<nat>

    ghost predicate Valid()
      reads this
    {
      preview == PreviewOf(rows, capped)
    }

    constructor (hit: string -> bool, policy: Policy, capped: bool, cadence: Cadence, stop: Stop)
      ensures this.hit == hit && this.policy == policy && this.capped == capped
      ensures this.cadence == cadence && this.stop == stop
      ensures rows == [] && preview == [] && count == 0 && progress == []
      ensures Valid()
    {
      this.hit := hit;
      this.policy := policy;
      this.capped := capped;
      this.cadence := cadence;
      this.stop := stop;
      rows, preview, count, progress := [], [], 0, [];
    }

    /** Write one row, and add it to the preview unless the preview is full. */
    method Emit(r: Row)
      modifies this
      requires Valid()
      ensures Valid()
      ensures rows == old(rows) + [r]
      ensures count == old(count) && progress == old(progress)
    {
      PreviewStep(rows, r, capped);
      rows := rows + [r];
      if !capped || |preview| < PreviewCap {
        preview := preview + [r];
      }
    }

    /** One line of the reading loop: a hit row is written and counted at once, except
        under "last match only", which remembers the hit; "match once" stops at it. */
    method ReadLine(f: File, i: nat, last: Option<nat>, ghost h: seq<nat>, ghost written: seq<Row>,
                    ghost added: nat, ghost rows0: seq<Row>, ghost count0: nat)
      returns (matched: bool, last': Option<nat>, ghost h': seq<nat>, ghost written': seq<Row>, ghost added': nat)
      modifies this
      requires Valid() && i < |f.content.lines|
      requires rows == rows0 + written && count == count0 + added
      requires ScanInv(f, hit, policy, i, h, written, added, last, false)
      ensures Valid() && progress == old(progress)
      ensures rows == rows0 + written' && count == count0 + added'
      ensures ScanInv(f, hit, policy, i + 1, h', written', added', last', matched)
    {
      var lines := f.content.lines;
      matched, last', h', written', added' := false, last, h, written, added;
      if !hit(lines[i]) {
        ScanMiss(f, hit, policy, i, h, written, added, last);
      } else if !policy.matchOnce && policy.useLast {
        ScanDefer(f, hit, policy, i, h, written, added, last);
        h' := h + [i];
        last' := Some(i);
      } else {
        ScanHit(f, hit, policy, i, h, written, added, last);
        var r := HitRow(f.name, lines, i);
        AppendAssoc(rows0, written, [r]);
        Emit(r);
        h' := h + [i];
        written' := written + [r];
        count := count + 1;
        added' := added + 1;
        matched := policy.matchOnce;
      }
    }

    /** The reading loop of one file, line by line until the end or a "match once" hit. */
    method ReadLines(f: File)
      returns (i: nat, matched: bool, last: Option<nat>, ghost h: seq<nat>, ghost written: seq<Row>, ghost added: nat)
      modifies this
      requires Valid()
      ensures Valid() && progress == old(progress)
      ensures rows == old(rows) + written && count == old(count) + added
      ensures ScanInv(f, hit, policy, i, h, written, added, last, matched)
      ensures i == |f.content.lines| || matched
    {
      i, matched, last := 0, false, None;
      h, written, added := [], [], 0;
      ghost var rows0, count0 := rows, count;
      while i < |f.content.lines| && !matched
        invariant Valid() && progress == old(progress)
        invariant rows == rows0 + written && count == count0 + added
        invariant ScanInv(f, hit, policy, i, h, written, added, last, matched)
        decreases |f.content.lines| - i
      {
        matched, last, h, written, added := ReadLine(f, i, last, h, written, added, rows0, count0);
        i := i + 1;
      }
    }

    /** Search one file: the reading loop, then the error row if reading raised, else the
        remembered "last match only" row. */
    method ScanFile(f: File)
      modifies this
      requires Valid()
      ensures Valid()
      ensures rows == old(rows) + FileRows(f, hit, policy)
      ensures count == old(count) + FileCount(f, hit, policy)
      ensures progress == old(progress)
    {
      ghost var rows0 := rows;
      var i, matched, last, h, written, added := ReadLines(f);
      ScanEnd(f, hit, policy, i, h, written, added, last, matched);
      ghost var after := AfterLoop(f, h, policy);
      AppendAssoc(rows0, written, after);
      if !matched && f.content.fails {
        Emit(ErrorRow(f.name, f.content.error));
      } else if last.Some? {
        Emit(HitRow(f.name, f.content.lines, last.value));
        count := count + 1;
      }
      assert rows == rows0 + written + after;
    }

    /** One pass of the file loop: search file `i`, then post progress if the cadence says
        so. */
    method SearchOne(files: seq<File>, i: nat)
      modifies this
      requires i < |files| && Valid()
      requires rows == RunTo(FileStep(hit, policy), files, i).rows
      requires count == RunTo(FileStep(hit, policy), files, i).count
      requires progress == PostedTo(cadence, i, |files|)
      ensures Valid()
      ensures rows == RunTo(FileStep(hit, policy), files, i + 1).rows
      ensures count == RunTo(FileStep(hit, policy), files, i + 1).count
      ensures progress == PostedTo(cadence, i + 1, |files|)
    {
      RunToNext(files, hit, policy, i);
      ScanFile(files[i]);
      if Posts(cadence, i + 1, |files|) {
        progress := progress + [i + 1];
      }
    }

    /** The file loop: the stop flag is read before each file and, once seen, ends the
        loop; progress is posted after a file at the tool's cadence. */
    method ScanFiles(files: seq<File>) returns (i: nat)
      modifies this
      requires Valid() && rows == [] && count == 0 && progress == []
      ensures Valid() && i == Processed(files, stop)
      ensures rows == RunTo(FileStep(hit, policy), files, i).rows
      ensures count == RunTo(FileStep(hit, policy), files, i).count
      ensures progress == PostedTo(cadence, i, |files|)
    {
      i := 0;
      while i < |files| && !IsSet(stop, i)
        invariant i <= Processed(files, stop) && Valid()
        invariant rows == RunTo(FileStep(hit, policy), files, i).rows
        invariant count == RunTo(FileStep(hit, policy), files, i).count
        invariant progress == PostedTo(cadence, i, |files|)
      {
        ProcessedStep(files, stop, i);
        SearchOne(files, i);
        i := i + 1;
      }
      ProcessedStep(files, stop, i);
    }

    /** A search: the state is reset, the files are searched, and the result says whether
        the final read of the flag finds it clear ("Completed"). */
    method SearchFiles(files: seq<File>) returns (completed: bool)
      modifies this
      ensures Valid()
      ensures rows == Search(files, hit, policy, stop).rows
      ensures count == Search(files, hit, policy, stop).count
      ensures progress == PostedTo(cadence, Processed(files, stop), |files|)
      ensures completed <==> !IsSet(stop, Processed(files, stop))
    {
      rows, preview, count, progress := [], [], 0, [];
      var i := ScanFiles(files);
      completed := !IsSet(stop, i);
    }
  }

  /** Selected files: those whose name (lower-cased first when `fold`) ends with one of
      the extensions, in walk order. */
  predicate Wanted(f: File, exts: seq<string>, fold: bool) {
    EndsWithAny(if fold then Lower(f.name) else f.name, exts)
  }

  function FileList(walk: seq<File>, exts: seq<string>, fold: bool): (r: seq<File>)
    ensures |r| <= |walk|
    decreases |walk|
  {
    if |walk| == 0 then []
    else FileList(walk[..|walk| - 1], exts, fold)
         + (if Wanted(walk[|walk| - 1], exts, fold) then [walk[|walk| - 1]] else [])
  }

  /** A file is searched iff it is in the walk and wanted; selection keeps walk order. */
  lemma {:induction false} FileListMembers(walk: seq<File>, exts: seq<string>, fold: bool)
    ensures forall f :: f in FileList(walk, exts, fold) <==> f in walk && Wanted(f, exts, fold)
    decreases |walk|
  {
    if |walk| > 0 {
      var n := |walk| - 1;
      FileListMembers(walk[..n], exts, fold);
      assert walk == walk[..n] + [walk[n]];
    }
  }

  lemma {:induction false} FileListAppend(a: seq<File>, b: seq<File>, exts: seq<string>, fold: bool)
    ensures FileList(a + b, exts, fold) == FileList(a, exts, fold) + FileList(b, exts, fold)
    decreases |b|
  {
    if |b| == 0 {
      assert a + b == a;
    } else {
      var n := |b| - 1;
      assert (a + b)[..|a + b| - 1] == a + b[..n];
      FileListAppend(a, b[..n], exts, fold);
    }
  }

  /** The walk loop: each wanted file is appended to the list as the walk reaches it. */
  method CollectFiles(walk: seq<File>, exts: seq<string>, fold: bool) returns (list: seq<File>)
    ensures list == FileList(walk, exts, fold)
  {
    list := [];
    var i := 0;
    while i < |walk|
      invariant i <= |walk| && list == FileList(walk[..i], exts, fold)
    {
      assert walk[..i + 1][..i] == walk[..i];
      if Wanted(walk[i], exts, fold) {
        list := list + [walk[i]];
      }
      i := i + 1;
    }
    assert walk[..|walk|] == walk;
  }

  /** One search run by a fresh searcher: what it leaves in its rows, preview, count and
      progress, and whether it completed. */
  method RunSearch(hit: string -> bool, p: Policy, capped: bool, cadence: Cadence, stop: Stop, files: seq<File>)
    returns (rows: seq<Row>, preview: seq<Row>, count: nat, progress: seq<nat>, completed: bool)
    ensures rows == Search(files, hit, p, stop).rows
    ensures count == Search(files, hit, p, stop).count
    ensures preview == PreviewOf(rows, capped)
    ensures progress == PostedTo(cadence, Processed(files, stop), |files|)
    ensures completed <==> !IsSet(stop, Processed(files, stop))
  {
    var s := new Searcher(hit, p, capped, cadence, stop);
    completed := s.SearchFiles(files);
    rows, preview, count, progress := s.rows, s.preview, s.count, s.progress;
  }
}
