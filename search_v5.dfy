/** FolderSearchV5.py: a user-given extension list, "match once", "last match only",
    case rule, "show all" and "include non-matching files". Each file's rows are collected
    first and written together; the stop flag is read only between files. */
module SearchV5 {
  import opened Opt
  import opened PyText
  import opened Seqs
  import opened Matching
  import FR = FoundRows
  import V6 = SearchV6Zip

  /** One result row: file name, line-number column (a number, `"-"` or `"ERROR"`), text. */
  datatype Row = Row(name: string, line: V6.LineNo, text: string)

  // ---------------------------------------------------------------- extensions

  /** The entries of the extension field: each piece between commas, stripped, blanks
      dropped, in order; neither lower-cased nor dot-prefixed. */
  function Entries(parts: seq<string>): (r: seq<string>)
    ensures |r| <= |parts|
    ensures forall k :: 0 <= k < |r| ==> r[k] != []
    decreases |parts|
  {
    if |parts| == 0 then []
    else (if Strip(parts[0]) != "" then [Strip(parts[0])] else []) + Entries(parts[1..])
  }

  function Extensions(field: string): seq<string> {
    Entries(Split(field, ','))
  }

  /** An entry is exactly a non-blank piece, stripped. */
  lemma {:induction false} EntriesMembers(parts: seq<string>, e: string)
    ensures e in Entries(parts) <==> exists i :: 0 <= i < |parts| && Strip(parts[i]) != [] && e == Strip(parts[i])
    decreases |parts|
  {
    if |parts| > 0 {
      EntriesMembers(parts[1..], e);
      assert forall i :: 1 <= i < |parts| ==> parts[i] == parts[1..][i - 1];
      if exists i :: 0 <= i < |parts| && Strip(parts[i]) != [] && e == Strip(parts[i]) {
        var i :| 0 <= i < |parts| && Strip(parts[i]) != [] && e == Strip(parts[i]);
        if i > 0 {
          assert parts[1..][i - 1] == parts[i];
        }
      }
    }
  }

  /** The entries are compared verbatim with the lower-cased file name, so an entry with an
      upper-case letter selects nothing. */
  lemma UpperEntrySelectsNothing(f: FR.File, e: string)
    requires exists k :: 0 <= k < |e| && 'A' <= e[k] <= 'Z'
    ensures !FR.Wanted(f, [e], true)
  {
    var k :| 0 <= k < |e| && 'A' <= e[k] <= 'Z';
    var n := Lower(f.name);
    if |e| <= |n| {
      assert n[|n| - |e|..][k] == n[|n| - |e| + k];
    }
  }

  // ---------------------------------------------------------------- one file

  function HitRow(name: string, lines: seq<string>, i: nat): Row {
    Row(name, V6.Num(i + 1), if i < |lines| then Strip(lines[i]) else "")
  }

  function HitRows(name: string, lines: seq<string>, idx: seq<nat>): (r: seq<Row>)
    ensures |r| == |idx|
    decreases |idx|
  {
    if |idx| == 0 then []
    else HitRows(name, lines, idx[..|idx| - 1]) + [HitRow(name, lines, idx[|idx| - 1])]
  }

  lemma HitRowsSnoc(name: string, lines: seq<string>, idx: seq<nat>, i: nat)
    ensures HitRows(name, lines, idx + [i]) == HitRows(name, lines, idx) + [HitRow(name, lines, i)]
  {
    assert (idx + [i])[..|idx|] == idx;
  }

  lemma {:induction false} HitRowsAt(name: string, lines: seq<string>, idx: seq<nat>)
    ensures forall k :: 0 <= k < |idx| ==> HitRows(name, lines, idx)[k] == HitRow(name, lines, idx[k])
    decreases |idx|
  {
    if |idx| > 0 {
      HitRowsAt(name, lines, idx[..|idx| - 1]);
    }
  }

  function ErrorRow(name: string, error: string): Row {
    Row(name, V6.Error, "Could not read file: " + error)
  }

  function NoMatchRow(name: string): Row {
    Row(name, V6.Dash, V6.NoMatchText)
  }

  predicate IsNumRow(r: Row) {
    r.line.Num?
  }

  predicate IsErrorRow(r: Row) {
    r.line.Error?
  }

  /** The rows collected for a file whose hits are `h` when its reading ends: the kept
      hits, then the error row if reading raised. */
  function Matches(f: FR.File, h: seq<nat>, p: Policy): seq<Row> {
    HitRows(f.name, f.content.lines, FR.Kept(h, f.content.fails, p))
      + (if FR.Raised(h, f.content.fails, p) then [ErrorRow(f.name, f.content.error)] else [])
  }

  /** What one file adds: the rows written and the matches counted. */
  datatype Outcome = Outcome(rows: seq<Row>, count: nat)

  /** A file's collected rows are written when a line held the keyword; a file with nothing
      collected gets one "[No match found]" row when such files are wanted. Every row of a
      file with a hit is counted. */
  function FileOutcome(f: FR.File, hit: string -> bool, p: Policy, includeNoMatch: bool): Outcome {
    var h := FR.HitsOf(f.content.lines, hit, |f.content.lines|);
    var got := Matches(f, h, p);
    var rows := if h != [] then got else if includeNoMatch && got == [] then [NoMatchRow(f.name)] else [];
    Outcome(rows, if h != [] then |rows| else 0)
  }

  lemma {:induction false} HitRowsCounts(name: string, lines: seq<string>, idx: seq<nat>)
    ensures Count(HitRows(name, lines, idx), IsNumRow) == |idx|
    ensures Count(HitRows(name, lines, idx), IsErrorRow) == 0
    decreases |idx|
  {
    if |idx| > 0 {
      HitRowsCounts(name, lines, idx[..|idx| - 1]);
      CountAppend(HitRows(name, lines, idx[..|idx| - 1]), [HitRow(name, lines, idx[|idx| - 1])], IsNumRow);
      CountAppend(HitRows(name, lines, idx[..|idx| - 1]), [HitRow(name, lines, idx[|idx| - 1])], IsErrorRow);
    }
  }

  /** What a file writes: nothing for a file without hits unless "include non-matching"
      is set and reading did not raise, in which case the single "-" row; a read error
      before any hit writes nothing at all. A file with hits writes its kept hits (the
      first, the last or all), then the error row if reading raised. */
  lemma FileRowsShape(f: FR.File, hit: string -> bool, p: Policy, includeNoMatch: bool)
    ensures var h := FR.HitsOf(f.content.lines, hit, |f.content.lines|);
      var o := FileOutcome(f, hit, p, includeNoMatch);
      (h == [] && includeNoMatch && !f.content.fails ==> o.rows == [NoMatchRow(f.name)])
      && (h == [] && (f.content.fails || !includeNoMatch) ==> o.rows == [])
      && (h != [] ==> o.rows == Matches(f, h, p) && o.rows != [])
  {
  }

  /** The collected rows of a file are its kept hits, numbered, then at most one ERROR
      row. */
  lemma MatchesCounts(f: FR.File, h: seq<nat>, p: Policy)
    ensures Count(Matches(f, h, p), IsNumRow) == |FR.Kept(h, f.content.fails, p)|
    ensures Count(Matches(f, h, p), IsErrorRow) == if FR.Raised(h, f.content.fails, p) then 1 else 0
    ensures |Matches(f, h, p)| == Count(Matches(f, h, p), IsNumRow) + Count(Matches(f, h, p), IsErrorRow)
  {
    var kept := HitRows(f.name, f.content.lines, FR.Kept(h, f.content.fails, p));
    var err := if FR.Raised(h, f.content.fails, p) then [ErrorRow(f.name, f.content.error)] else [];
    HitRowsCounts(f.name, f.content.lines, FR.Kept(h, f.content.fails, p));
    CountAppend(kept, err, IsNumRow);
    CountAppend(kept, err, IsErrorRow);
    if err != [] {
      assert err[..0] == [];
    }
  }

  /** An outcome counts exactly its numbered and ERROR rows. */
  predicate CountsRows(o: Outcome) {
    o.count == Count(o.rows, IsNumRow) + Count(o.rows, IsErrorRow)
  }

  /** The count of a file is its numbered rows plus its ERROR row: a "-" row is never
      counted, while an error after a hit is counted as a match. */
  lemma FileCountParts(f: FR.File, hit: string -> bool, p: Policy, includeNoMatch: bool)
    ensures CountsRows(FileOutcome(f, hit, p, includeNoMatch))
  {
    var h := FR.HitsOf(f.content.lines, hit, |f.content.lines|);
    var o := FileOutcome(f, hit, p, includeNoMatch);
    if h != [] {
      MatchesCounts(f, h, p);
    } else if o.rows != [] {
      assert o.rows == [NoMatchRow(f.name)];
      assert o.rows[..0] == [];
    }
  }

  // ---------------------------------------------------------------- the reading loop

  /** The reading loop after `i` lines: `h` the hits so far, `matches` the rows collected so
      far (all hits, or the one "match once" hit; none under "last match only"), `last`
      the remembered "last match only" row, `matched` whether "match once" found its
      hit. */
  ghost predicate ReadInv(f: FR.File, hit: string -> bool, p: Policy, i: nat, h: seq<nat>,
                          matches: seq<Row>, last: Option<Row>, matched: bool)
  {
    i <= |f.content.lines| && h == FR.HitsOf(f.content.lines, hit, i)
    && (matched <==> p.matchOnce && h != [])
    && (p.matchOnce ==> |h| <= 1)
    && matches == HitRows(f.name, f.content.lines, FR.Written(h, p))
    && last == (if !p.matchOnce && p.useLast && h != [] then Some(HitRow(f.name, f.content.lines, h[|h| - 1])) else None)
  }

  lemma ReadMiss(f: FR.File, hit: string -> bool, p: Policy, i: nat, h: seq<nat>, matches: seq<Row>, last: Option<Row>)
    requires ReadInv(f, hit, p, i, h, matches, last, false)
    requires i < |f.content.lines| && !hit(f.content.lines[i])
    ensures ReadInv(f, hit, p, i + 1, h, matches, last, false)
  {
  }

  lemma ReadFirst(f: FR.File, hit: string -> bool, p: Policy, i: nat, h: seq<nat>, matches: seq<Row>, last: Option<Row>)
    requires ReadInv(f, hit, p, i, h, matches, last, false)
    requires i < |f.content.lines| && hit(f.content.lines[i]) && p.matchOnce
    ensures ReadInv(f, hit, p, i + 1, h + [i], [HitRow(f.name, f.content.lines, i)], last, true)
  {
    HitRowsSnoc(f.name, f.content.lines, h, i);
  }

  lemma ReadLast(f: FR.File, hit: string -> bool, p: Policy, i: nat, h: seq<nat>, matches: seq<Row>, last: Option<Row>)
    requires ReadInv(f, hit, p, i, h, matches, last, false)
    requires i < |f.content.lines| && hit(f.content.lines[i]) && !p.matchOnce && p.useLast
    ensures ReadInv(f, hit, p, i + 1, h + [i], matches, Some(HitRow(f.name, f.content.lines, i)), false)
  {
  }

  lemma ReadAll(f: FR.File, hit: string -> bool, p: Policy, i: nat, h: seq<nat>, matches: seq<Row>, last: Option<Row>)
    requires ReadInv(f, hit, p, i, h, matches, last, false)
    requires i < |f.content.lines| && hit(f.content.lines[i]) && !p.matchOnce && !p.useLast
    ensures ReadInv(f, hit, p, i + 1, h + [i], matches + [HitRow(f.name, f.content.lines, i)], last, false)
  {
    HitRowsSnoc(f.name, f.content.lines, h, i);
  }

  /** When the loop ends (every line read, or the "match once" hit), the rows collected
      after the error or the remembered row are added are the file's `Matches`. */
  lemma ReadEnd(f: FR.File, hit: string -> bool, p: Policy, i: nat, h: seq<nat>,
                matches: seq<Row>, last: Option<Row>, matched: bool)
    requires ReadInv(f, hit, p, i, h, matches, last, matched)
    requires i == |f.content.lines| || matched
    ensures var full := FR.HitsOf(f.content.lines, hit, |f.content.lines|);
      (h != [] <==> full != [])
      && Matches(f, full, p)
         == if matched then matches
            else if f.content.fails then matches + [ErrorRow(f.name, f.content.error)]
            else if last.Some? then [last.value]
            else matches
  {
    var lines := f.content.lines;
    var full := FR.HitsOf(lines, hit, |lines|);
    FR.HitsOfPrefix(lines, hit, i, |lines|);
    if matched {
      assert full[0] == h[0];
      assert FR.Kept(full, f.content.fails, p) == h;
    } else {
      assert h == full;
      if last.Some? && !f.content.fails {
        assert FR.Kept(full, f.content.fails, p) == [h[|h| - 1]];
        assert [h[|h| - 1]][..0] == [];
      }
    }
  }

  /** One line of the reading loop: a hit is collected at once, remembered under "last
      match only", and ends the loop under "match once". */
  method ReadLine(f: FR.File, hit: string -> bool, p: Policy, i: nat, matches: seq<Row>, last: Option<Row>,
                  ghost h: seq<nat>)
    returns (matches': seq<Row>, last': Option<Row>, matched: bool, ghost h': seq<nat>)
    requires i < |f.content.lines| && ReadInv(f, hit, p, i, h, matches, last, false)
    ensures ReadInv(f, hit, p, i + 1, h', matches', last', matched)
    ensures h' == h + (if hit(f.content.lines[i]) then [i] else [])
  {
    var lines := f.content.lines;
    matches', last', matched, h' := matches, last, false, h;
    if hit(lines[i]) {
      var r := HitRow(f.name, lines, i);
      if p.matchOnce {
        ReadFirst(f, hit, p, i, h, matches, last);
        matches' := [r];
        matched := true;
      } else if p.useLast {
        ReadLast(f, hit, p, i, h, matches, last);
        last' := Some(r);
      } else {
        ReadAll(f, hit, p, i, h, matches, last);
        matches' := matches + [r];
      }
      h' := h + [i];
    } else {
      ReadMiss(f, hit, p, i, h, matches, last);
    }
  }

  /** The reading loop, line by line until the end or a "match once" hit. */
  method ReadLines(f: FR.File, hit: string -> bool, p: Policy)
    returns (i: nat, matches: seq<Row>, last: Option<Row>, matched: bool, found: bool, ghost h: seq<nat>)
    ensures ReadInv(f, hit, p, i, h, matches, last, matched)
    ensures i == |f.content.lines| || matched
    ensures found <==> h != []
  {
    var lines := f.content.lines;
    i, matches, last, matched, found := 0, [], None, false, false;
    h := [];
    while i < |lines| && !matched
      invariant ReadInv(f, hit, p, i, h, matches, last, matched)
      invariant found <==> h != []
      decreases |lines| - i
    {
      found := found || hit(lines[i]);
      matches, last, matched, h := ReadLine(f, hit, p, i, matches, last, h);
      i := i + 1;
    }
  }

  /** Read one file: the reading loop, then the error row if reading raised, else the
      remembered "last match only" row. */
  method ReadFile(f: FR.File, hit: string -> bool, p: Policy) returns (matches: seq<Row>, found: bool)
    ensures found <==> FR.HitsOf(f.content.lines, hit, |f.content.lines|) != []
    ensures matches == Matches(f, FR.HitsOf(f.content.lines, hit, |f.content.lines|), p)
  {
    var i, last, matched;
    ghost var h;
    i, matches, last, matched, found, h := ReadLines(f, hit, p);
    ReadEnd(f, hit, p, i, h, matches, last, matched);
    if !matched && f.content.fails {
      matches := matches + [ErrorRow(f.name, f.content.error)];
    } else if last.Some? {
      matches := [last.value];
    }
  }

  // ---------------------------------------------------------------- the file loop

  /** The preview: every row under "show all", else the first 1000. */
  function Cap(rows: seq<Row>, showAll: bool): seq<Row> {
    if showAll then rows else Take(rows, V6.PreviewCap)
  }

  /** A row joins the preview exactly while the preview is not full. */
  lemma CapStep(rows: seq<Row>, r: Row, showAll: bool)
    ensures Cap(rows + [r], showAll)
         == if showAll || |Cap(rows, showAll)| < V6.PreviewCap then Cap(rows, showAll) + [r] else Cap(rows, showAll)
  {
    if !showAll && |rows| >= V6.PreviewCap {
      assert (rows + [r])[..V6.PreviewCap] == rows[..V6.PreviewCap];
    }
  }

  /** The preview is a prefix of the rows written, all of them under "show all", else
      the first 1000. */
  lemma CapShape(rows: seq<Row>, showAll: bool)
    ensures Cap(rows, showAll) <= rows
    ensures showAll || |rows| <= V6.PreviewCap ==> Cap(rows, showAll) == rows
    ensures !showAll ==> |Cap(rows, showAll)| == Min(V6.PreviewCap, |rows|)
  {
  }

  /** The rows and count after the first `k` files. */
  function RunTo(files: seq<FR.File>, hit: string -> bool, p: Policy, includeNoMatch: bool, k: nat): Outcome
    requires k <= |files|
    decreases k
  {
    if k == 0 then Outcome([], 0)
    else
      var before := RunTo(files, hit, p, includeNoMatch, k - 1);
      var o := FileOutcome(files[k - 1], hit, p, includeNoMatch);
      Outcome(before.rows + o.rows, before.count + o.count)
  }

  /** Outcomes whose count is their numbered and ERROR rows add up to one that is too. */
  lemma CountsJoin(a: Outcome, b: Outcome, o: Outcome)
    requires CountsRows(a) && CountsRows(b)
    requires o == Outcome(a.rows + b.rows, a.count + b.count)
    ensures CountsRows(o)
  {
    CountAppend(a.rows, b.rows, IsNumRow);
    CountAppend(a.rows, b.rows, IsErrorRow);
  }

  /** The rows and count after the first `k` files, for any per-file outcome. */
  function FoldFiles(files: seq<FR.File>, step: FR.File -> Outcome, k: nat): Outcome
    requires k <= |files|
    decreases k
  {
    if k == 0 then Outcome([], 0)
    else
      var before := FoldFiles(files, step, k - 1);
      var o := step(files[k - 1]);
      Outcome(before.rows + o.rows, before.count + o.count)
  }

  lemma {:induction false} FoldFilesCounts(files: seq<FR.File>, step: FR.File -> Outcome, k: nat)
    requires k <= |files|
    requires forall f :: CountsRows(step(f))
    ensures CountsRows(FoldFiles(files, step, k))
    decreases k
  {
    if k > 0 {
      FoldFilesCounts(files, step, k - 1);
      CountsJoin(FoldFiles(files, step, k - 1), step(files[k - 1]), FoldFiles(files, step, k));
    }
  }

  lemma {:induction false} RunToFold(files: seq<FR.File>, hit: string -> bool, p: Policy, includeNoMatch: bool, k: nat)
    requires k <= |files|
    ensures RunTo(files, hit, p, includeNoMatch, k) == FoldFiles(files, f => FileOutcome(f, hit, p, includeNoMatch), k)
    decreases k
  {
    if k > 0 {
      RunToFold(files, hit, p, includeNoMatch, k - 1);
    }
  }

  /** Over the whole search, the count is the number of numbered and ERROR rows written. */
  lemma RunCount(files: seq<FR.File>, hit: string -> bool, p: Policy, includeNoMatch: bool, k: nat)
    requires k <= |files|
    ensures CountsRows(RunTo(files, hit, p, includeNoMatch, k))
  {
    var step := f => FileOutcome(f, hit, p, includeNoMatch);
    forall f ensures CountsRows(step(f)) {
      FileCountParts(f, hit, p, includeNoMatch);
    }
    FoldFilesCounts(files, step, k);
    RunToFold(files, hit, p, includeNoMatch, k);
  }

  /** Write a file's rows, each to the CSV rows and, while there is room, to the preview. */
  method WriteRows(rows: seq<Row>, written: seq<Row>, preview: seq<Row>, showAll: bool)
    returns (written': seq<Row>, preview': seq<Row>)
    requires preview == Cap(written, showAll)
    ensures written' == written + rows && preview' == Cap(written', showAll)
  {
    written', preview' := written, preview;
    var j := 0;
    while j < |rows|
      invariant j <= |rows| && written' == written + rows[..j] && preview' == Cap(written', showAll)
    {
      CapStep(written', rows[j], showAll);
      if showAll || |preview'| < V6.PreviewCap {
        preview' := preview' + [rows[j]];
      }
      written' := written' + [rows[j]];
      assert rows[..j + 1] == rows[..j] + [rows[j]];
      AppendAssoc(written, rows[..j], [rows[j]]);
      j := j + 1;
    }
    assert rows[..j] == rows;
  }

  /** One file of the loop: read it, write its rows if a line held the keyword or, with
      nothing collected, its "-" row if such files are wanted, and count them only in the
      first case. */
  method ProcessFile(f: FR.File, hit: string -> bool, p: Policy, includeNoMatch: bool, showAll: bool,
                     written: seq<Row>, preview: seq<Row>)
    returns (written': seq<Row>, preview': seq<Row>, added: nat)
    requires preview == Cap(written, showAll)
    ensures written' == written + FileOutcome(f, hit, p, includeNoMatch).rows
    ensures added == FileOutcome(f, hit, p, includeNoMatch).count
    ensures preview' == Cap(written', showAll)
  {
    var matches, found := ReadFile(f, hit, p);
    written', preview', added := written, preview, 0;
    if found || (includeNoMatch && matches == []) {
      if matches == [] && includeNoMatch {
        matches := matches + [NoMatchRow(f.name)];
      }
      written', preview' := WriteRows(matches, written, preview, showAll);
      added := if found then |matches| else 0;
    } else {
      assert written + [] == written;
    }
  }

  lemma RunToNext(files: seq<FR.File>, hit: string -> bool, p: Policy, includeNoMatch: bool, i: nat)
    requires i < |files|
    ensures RunTo(files, hit, p, includeNoMatch, i + 1).rows
         == RunTo(files, hit, p, includeNoMatch, i).rows + FileOutcome(files[i], hit, p, includeNoMatch).rows
    ensures RunTo(files, hit, p, includeNoMatch, i + 1).count
         == RunTo(files, hit, p, includeNoMatch, i).count + FileOutcome(files[i], hit, p, includeNoMatch).count
  {
  }

  /** One pass of the file loop: the file's rows and count, then progress if the index is
      a multiple of 10 or the last. */
  method ProcessOne(files: seq<FR.File>, i: nat, hit: string -> bool, p: Policy, includeNoMatch: bool,
                    showAll: bool, written: seq<Row>, preview: seq<Row>, count: nat, progress: seq<nat>)
    returns (written': seq<Row>, preview': seq<Row>, count': nat, progress': seq<nat>)
    requires i < |files|
    requires written == RunTo(files, hit, p, includeNoMatch, i).rows
    requires count == RunTo(files, hit, p, includeNoMatch, i).count
    requires preview == Cap(written, showAll)
    requires progress == FR.PostedTo(FR.TenthOrLast, i, |files|)
    ensures written' == RunTo(files, hit, p, includeNoMatch, i + 1).rows
    ensures count' == RunTo(files, hit, p, includeNoMatch, i + 1).count
    ensures preview' == Cap(written', showAll)
    ensures progress' == FR.PostedTo(FR.TenthOrLast, i + 1, |files|)
  {
    RunToNext(files, hit, p, includeNoMatch, i);
    var added;
    written', preview', added := ProcessFile(files[i], hit, p, includeNoMatch, showAll, written, preview);
    count' := count + added;
    progress' := progress;
    if (i + 1) % 10 == 0 || i + 1 == |files| {
      progress' := progress + [i + 1];
    }
  }

  /** `_process_files`: the stop flag is read before each file and ends the loop once
      seen; progress is posted after every tenth file and after the last. */
  method ProcessFiles(files: seq<FR.File>, hit: string -> bool, p: Policy, includeNoMatch: bool,
                      showAll: bool, stop: Stop)
    returns (written: seq<Row>, preview: seq<Row>, count: nat, progress: seq<nat>)
    ensures written == RunTo(files, hit, p, includeNoMatch, FR.Processed(files, stop)).rows
    ensures count == RunTo(files, hit, p, includeNoMatch, FR.Processed(files, stop)).count
    ensures preview == Cap(written, showAll)
    ensures progress == FR.PostedTo(FR.TenthOrLast, FR.Processed(files, stop), |files|)
  {
    written, preview, count, progress := [], [], 0, [];
    var i := 0;
    while i < |files| && !IsSet(stop, i)
      invariant i <= FR.Processed(files, stop)
      invariant written == RunTo(files, hit, p, includeNoMatch, i).rows
      invariant count == RunTo(files, hit, p, includeNoMatch, i).count
      invariant preview == Cap(written, showAll)
      invariant progress == FR.PostedTo(FR.TenthOrLast, i, |files|)
    {
      FR.ProcessedStep(files, stop, i);
      written, preview, count, progress := ProcessOne(files, i, hit, p, includeNoMatch, showAll, written, preview, count, progress);
      i := i + 1;
    }
    FR.ProcessedStep(files, stop, i);
  }

  // ---------------------------------------------------------------- a search

  /** The check boxes of the search window. */
  datatype Options = Options(matchOnce: bool, useLast: bool, caseSensitive: bool,
                             showAll: bool, includeNoMatch: bool)

  /** What a search leaves: a refusal of the inputs, "No matching file types found", or
      the rows written, the preview, the count, the progress values posted and whether the
      final read of the stop flag found it set. */
  datatype Report =
    | Refused
    | NoFileTypes
    | Finished(rows: seq<Row>, preview: seq<Row>, count: nat, progress: seq<nat>, cancelled: bool)

  /** `start_search_thread` and `search_files`: folder, stripped keyword and stripped
      extension field must be present; then the walk is filtered by lower-cased name
      against the entries, and an empty list ends the search before any file is read. */
  method Search(isDir: bool, keywordEntry: string, extField: string, o: Options,
                walk: seq<FR.File>, stop: Stop) returns (r: Report)
    ensures !isDir || Strip(keywordEntry) == [] || Strip(extField) == [] <==> r == Refused
    ensures r == NoFileTypes <==>
      isDir && Strip(keywordEntry) != [] && Strip(extField) != []
      && FR.FileList(walk, Extensions(Strip(extField)), true) == []
    ensures r.Finished? ==>
      var files := FR.FileList(walk, Extensions(Strip(extField)), true);
      var hit := FR.KeywordTest(Strip(keywordEntry), o.caseSensitive);
      var out := RunTo(files, hit, Policy(o.matchOnce, o.useLast), o.includeNoMatch, FR.Processed(files, stop));
      files != [] && r.rows == out.rows && r.count == out.count
      && r.preview == Cap(r.rows, o.showAll)
      && r.progress == FR.PostedTo(FR.TenthOrLast, FR.Processed(files, stop), |files|)
      && (r.cancelled <==> IsSet(stop, FR.Processed(files, stop)))
    ensures r.Finished? ==> r.count == Count(r.rows, IsNumRow) + Count(r.rows, IsErrorRow)
  {
    var keyword := Strip(keywordEntry);
    var exts := Strip(extField);
    if !isDir || keyword == "" || exts == "" {
      return Refused;
    }
    var files := FR.CollectFiles(walk, Extensions(exts), true);
    if |files| == 0 {
      return NoFileTypes;
    }
    var hit := FR.KeywordTest(keyword, o.caseSensitive);
    var p := Policy(o.matchOnce, o.useLast);
    var rows, preview, count, progress := ProcessFiles(files, hit, p, o.includeNoMatch, o.showAll, stop);
    RunCount(files, hit, p, o.includeNoMatch, FR.Processed(files, stop));
    r := Finished(rows, preview, count, progress, IsSet(stop, FR.Processed(files, stop)));
  }
}
