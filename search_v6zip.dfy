/** The search engine of FolderSearchV6Zip.py: plain files and the text members of
    `.zip`/`.7z` archives are scanned line by line for a keyword; result rows go to a
    CSV file and to an on-screen preview capped at 1000 rows. */
module SearchV6Zip {
  import opened Opt
  import opened PyText
  import opened PyPath
  import opened Seqs
  import opened Matching

  const PreviewCap: nat := 1000

  /** The line-number column: a line number, the `"-"` of a "[No match found]" row, or
      `"ERROR"`. */
  datatype LineNo = Num(n: nat) | Dash | Error

  /** One result row: path column, file name, line-number column, line text. */
  datatype Row = Row(path: string, name: string, line: LineNo, text: string)

  /** The check boxes of the search window. */
  datatype Options = Options(matchOnce: bool, useLast: bool, caseSensitive: bool,
                             showAll: bool, includeNoMatch: bool)

  /** Everything fixed for one search: the keyword as compared (already lower-cased when
      the search ignores case), the options, the normalised extensions, the "search
      archives" toggle, whether py7zr is installed, and the stop request. */
  datatype Config = Config(keyword: string, opts: Options, exts: seq<string>,
                           archivesOn: bool, sevenZip: bool, stop: Stop)

  /** An archive as the archive library presents it: its members, or the error raised
      when it cannot be opened. */
  datatype Archive = Readable(members: seq<Member>) | Unreadable(error: string)

  /** An archive member: its name inside the archive, the zip directory flag, its text. */
  datatype Member = Member(name: string, isDir: bool, content: Stream)

  /** An entry of the file list: its path, its path relative to the searched folder, its
      text when read as a file and its contents when opened as an archive. */
  datatype Entry = Entry(path: string, name: string, relPath: string, content: Stream, archive: Archive)

  /** `os.walk` yields each file's name, and its path is the directory joined with
      that name, so the name is the path's base name. */
  predicate Walked(walk: seq<Entry>) {
    forall k :: 0 <= k < |walk| ==> walk[k].name == Basename(walk[k].path)
  }

  // ---------------------------------------------------------------- extensions

  /** One entry of the extension field, normalised: stripped, lower-cased, dot-prefixed. */
  function NormalizeExt(e: string): string {
    var x := Lower(Strip(e));
    if StartsWith(x, ".") then x else "." + x
  }

  predicate IsBlank(e: string) {
    Strip(e) == ""
  }

  predicate NoUpper(s: string) {
    forall i :: 0 <= i < |s| ==> !('A' <= s[i] <= 'Z')
  }

  predicate NotBlank(e: string) {
    !IsBlank(e)
  }

  /** A normalised entry starts with a dot and holds no upper-case letter. */
  lemma NormalizeExtShape(e: string)
    ensures StartsWith(NormalizeExt(e), ".") && NoUpper(NormalizeExt(e))
  {
    var x := Lower(Strip(e));
    assert NoUpper(x);
    if !StartsWith(x, ".") {
      assert ("." + x)[0] == '.';
      assert forall i :: 1 <= i < |"." + x| ==> ("." + x)[i] == x[i - 1];
    }
  }

  /** The extension list built from the comma-separated entries of the field. */
  function NormalizeExts(entries: seq<string>): (r: seq<string>)
    ensures |r| == Count(entries, NotBlank)
    ensures forall k :: 0 <= k < |r| ==> StartsWith(r[k], ".") && NoUpper(r[k])
    decreases |entries|
  {
    if |entries| == 0 then []
    else
      var n := |entries| - 1;
      var e := entries[n];
      NormalizeExtShape(e);
      NormalizeExts(entries[..n]) + (if !IsBlank(e) then [NormalizeExt(e)] else [])
  }

  /** Normalising is done entry by entry, so the list keeps the order of the field. */
  lemma {:induction false} NormalizeExtsAppend(a: seq<string>, b: seq<string>)
    ensures NormalizeExts(a + b) == NormalizeExts(a) + NormalizeExts(b)
    decreases |b|
  {
    if |b| == 0 {
      assert a + b == a;
    } else {
      var b' := b[..|b| - 1];
      assert (a + b)[..|a + b| - 1] == a + b';
      assert (a + b)[|a + b| - 1] == b[|b| - 1];
      NormalizeExtsAppend(a, b');
    }
  }

  /** A single entry gives nothing when blank and its normalised form otherwise. */
  lemma NormalizeExtsSingle(e: string)
    ensures NormalizeExts([e]) == if IsBlank(e) then [] else [NormalizeExt(e)]
  {
    assert [e][..0] == [];
  }

  /** The extension list of the search window. */
  function Extensions(field: string): seq<string> {
    NormalizeExts(Split(field, ','))
  }

  /** `start_search_thread` and the head of `search_files`: the keyword and extension
      entries are stripped, and the search is refused unless the folder is a directory
      and both are non-empty; the keyword is compared lower-cased when case is ignored,
      and the extension field is normalised entry by entry. */
  function Start(isDir: bool, keywordField: string, extField: string, opts: Options,
                 archivesOn: bool, sevenZip: bool, stop: Stop): (r: Option<Config>)
    ensures r.None? <==> !isDir || Strip(keywordField) == [] || Strip(extField) == []
    ensures r.Some? ==>
      var c := r.value;
      c.opts == opts && c.archivesOn == archivesOn && c.sevenZip == sevenZip && c.stop == stop
      && |c.keyword| == |Strip(keywordField)| > 0
      && (opts.caseSensitive ==> c.keyword == Strip(keywordField))
      && (!opts.caseSensitive ==> NoUpper(c.keyword) && Lower(c.keyword) == Lower(Strip(keywordField)))
      && |c.exts| == Count(Split(Strip(extField), ','), NotBlank)
      && forall k :: 0 <= k < |c.exts| ==> StartsWith(c.exts[k], ".") && NoUpper(c.exts[k])
  {
    var kw := Strip(keywordField);
    if !isDir || kw == [] || Strip(extField) == [] then None
    else
      var keyword := if opts.caseSensitive then kw else Lower(kw);
      assert Lower(Lower(kw)) == Lower(kw);
      Some(Config(keyword, opts, Extensions(Strip(extField)), archivesOn, sevenZip, stop))
  }

  // ---------------------------------------------------------------- classification

  predicate IsArchiveName(name: string) {
    EndsWithAny(Lower(name), [".zip", ".7z"])
  }

  predicate GoesToArchives(e: Entry, archivesOn: bool) {
    IsArchiveName(e.name) && archivesOn
  }

  predicate GoesToFiles(e: Entry, exts: seq<string>, archivesOn: bool) {
    !GoesToArchives(e, archivesOn) && EndsWithAny(Lower(e.name), exts)
  }

  /** The walk over the folder: candidate files and archives are collected in walk order
      into two lists, and the file list is the files followed by the archives. */
  function FileList(walk: seq<Entry>, exts: seq<string>, archivesOn: bool): seq<Entry> {
    Filter(walk, (e: Entry) => GoesToFiles(e, exts, archivesOn))
    + Filter(walk, (e: Entry) => GoesToArchives(e, archivesOn))
  }

  method Classify(walk: seq<Entry>, exts: seq<string>, archivesOn: bool) returns (fileList: seq<Entry>)
    ensures fileList == FileList(walk, exts, archivesOn)
  {
    var normalFiles: seq<Entry> := [];
    var archiveFiles: seq<Entry> := [];
    var i := 0;
    while i < |walk|
      invariant 0 <= i <= |walk|
      invariant normalFiles == Filter(walk[..i], (e: Entry) => GoesToFiles(e, exts, archivesOn))
      invariant archiveFiles == Filter(walk[..i], (e: Entry) => GoesToArchives(e, archivesOn))
    {
      var e := walk[i];
      assert walk[..i + 1][..i] == walk[..i];
      if IsArchiveName(e.name) && archivesOn {
        archiveFiles := archiveFiles + [e];
      } else if EndsWithAny(Lower(e.name), exts) {
        normalFiles := normalFiles + [e];
      }
      i := i + 1;
    }
    assert walk[..|walk|] == walk;
    fileList := normalFiles + archiveFiles;
  }

  /** With the archive toggle on, an archive name lands in the archive part only; every
      other candidate lands in the file part only; nothing else is listed. */
  lemma ClassifiedOnce(walk: seq<Entry>, exts: seq<string>, archivesOn: bool, e: Entry)
    ensures var files := Filter(walk, (x: Entry) => GoesToFiles(x, exts, archivesOn));
            var archives := Filter(walk, (x: Entry) => GoesToArchives(x, archivesOn));
      (e in archives <==> e in walk && archivesOn && IsArchiveName(e.name))
      && (e in files <==> e in walk && !(archivesOn && IsArchiveName(e.name)) && EndsWithAny(Lower(e.name), exts))
  {
    FilterMembership(walk, (x: Entry) => GoesToFiles(x, exts, archivesOn), e);
    FilterMembership(walk, (x: Entry) => GoesToArchives(x, archivesOn), e);
  }

  // ---------------------------------------------------------------- one text

  /** The text column of a hit: the line without its trailing newlines. */
  function LineText(line: string): string {
    RStrip(line, AnyOf({'\n'}))
  }

  function HitRow(path: string, name: string, lines: seq<string>, i: nat): Row
    requires i < |lines|
  {
    Row(path, name, Num(i + 1), LineText(lines[i]))
  }

  /** The rows of the hits at the given indices, in that order. */
  function HitRows(path: string, name: string, lines: seq<string>, idx: seq<nat>): (r: seq<Row>)
    requires forall k :: 0 <= k < |idx| ==> idx[k] < |lines|
    ensures |r| == |idx|
    decreases |idx|
  {
    if idx == [] then []
    else HitRows(path, name, lines, idx[..|idx| - 1]) + [HitRow(path, name, lines, idx[|idx| - 1])]
  }

  lemma {:induction false} HitRowsAt(path: string, name: string, lines: seq<string>, idx: seq<nat>)
    requires forall k :: 0 <= k < |idx| ==> idx[k] < |lines|
    ensures var r := HitRows(path, name, lines, idx);
      forall k :: 0 <= k < |idx| ==> r[k] == HitRow(path, name, lines, idx[k])
    decreases |idx|
  {
    if idx != [] {
      HitRowsAt(path, name, lines, idx[..|idx| - 1]);
    }
  }

  /** The state after reading one text, by line index: the indices of the hits held when
      the reading ended, whether a line held the keyword, whether the reader raised, and
      how many reads of the stop flag the whole search has made. */
  datatype IdxScan = IdxScan(idx: seq<nat>, found: bool, raised: bool, checks: nat)

  /** Reading one text (a file or an archive member) whose first stop-flag read is the
      `t`-th: the flag is read before every line; the reader's exception, if any, comes
      after the last line. */
  function ScanIdx(cfg: Config, s: Stream, t: nat): (r: IdxScan)
    ensures r.checks >= t
    ensures forall k :: 0 <= k < |r.idx| ==>
      r.idx[k] < |s.lines| && IsHit(s.lines[r.idx[k]], cfg.keyword, cfg.opts.caseSensitive)
  {
    var c := Cut(|s.lines|, t, cfg.stop);
    var h := Hits(s.lines[..c], cfg.keyword, cfg.opts.caseSensitive);
    assert forall k :: 0 <= k < |h| ==> h[k] < c && s.lines[h[k]] == s.lines[..c][h[k]];
    Decide(cfg.opts, h, c, |s.lines|, s.fails, t)
  }

  /** How the line loop ends, given the hits `h` among the `c` lines it may read before the
      stop flag is seen, out of `n` lines. */
  function Decide(o: Options, h: seq<nat>, c: nat, n: nat, fails: bool, t: nat): (r: IdxScan)
    ensures r.checks >= t
    ensures forall k :: 0 <= k < |r.idx| ==> r.idx[k] in h
  {
    var p := Policy(o.matchOnce, o.useLast);
    if o.matchOnce && h != [] then IdxScan([h[0]], true, false, t + h[0] + 1)
    else if c < n then IdxScan(Selected(h, p), h != [], false, t + c + 1)
    else if fails then IdxScan(if o.matchOnce || o.useLast then [] else h, h != [], true, t + c)
    else IdxScan(Selected(h, p), h != [], false, t + c)
  }

  /** The rows held after reading one text. */
  datatype TextScan = TextScan(kept: seq<Row>, found: bool, raised: bool, checks: nat)

  function ScanSpec(cfg: Config, s: Stream, t: nat, path: string, name: string): (r: TextScan)
    ensures r.checks >= t
  {
    var x := ScanIdx(cfg, s, t);
    TextScan(HitRows(path, name, s.lines, x.idx), x.found, x.raised, x.checks)
  }

  /** The rows held after reading a text are, one for one and in order, the rows of the
      lines the reading selected, each of which holds the keyword: the line's 1-based
      number and its text without trailing newlines. */
  lemma ScanRowsAreHits(cfg: Config, s: Stream, t: nat, path: string, name: string)
    ensures var x := ScanIdx(cfg, s, t); var r := ScanSpec(cfg, s, t, path, name);
      |r.kept| == |x.idx|
      && forall k :: 0 <= k < |x.idx| ==>
           x.idx[k] < |s.lines| && IsHit(s.lines[x.idx[k]], cfg.keyword, cfg.opts.caseSensitive)
           && r.kept[k] == Row(path, name, Num(x.idx[k] + 1), LineText(s.lines[x.idx[k]]))
  {
    var x := ScanIdx(cfg, s, t);
    assert ScanSpec(cfg, s, t, path, name).kept == HitRows(path, name, s.lines, x.idx);
    HitRowsAt(path, name, s.lines, x.idx);
  }

  /** The options bound the rows: "match once" and "last match only" hold at most one row;
      the reader's exception is only reached when it exists and "match once" has not
      already stopped the reading; rows are only held when a line held the keyword. */
  lemma ScanBounds(cfg: Config, s: Stream, t: nat, path: string, name: string)
    ensures var r := ScanSpec(cfg, s, t, path, name);
      (cfg.opts.matchOnce || cfg.opts.useLast ==> |r.kept| <= 1)
      && (r.raised ==> s.fails && !(cfg.opts.matchOnce && r.found))
      && (r.kept != [] ==> r.found)
      && (r.found && !r.raised ==> r.kept != [])
  {
  }

  /** Without a stop request, a text counts as containing the keyword iff one of its lines
      holds it. */
  lemma ScanFoundIffHit(cfg: Config, s: Stream, t: nat, path: string, name: string)
    requires cfg.stop == Never
    ensures ScanSpec(cfg, s, t, path, name).found
        <==> exists i :: 0 <= i < |s.lines| && IsHit(s.lines[i], cfg.keyword, cfg.opts.caseSensitive)
  {
    WholeFound(cfg, s, t);
    var lines := s.lines;
    HitsShape(lines, cfg.keyword, cfg.opts.caseSensitive);
    var h := Hits(lines, cfg.keyword, cfg.opts.caseSensitive);
    if exists i :: 0 <= i < |lines| && IsHit(lines[i], cfg.keyword, cfg.opts.caseSensitive) {
      var i :| 0 <= i < |lines| && IsHit(lines[i], cfg.keyword, cfg.opts.caseSensitive);
      assert i in h;
    }
    if h != [] {
      assert IsHit(lines[h[0]], cfg.keyword, cfg.opts.caseSensitive);
    }
  }

  lemma WholeFound(cfg: Config, s: Stream, t: nat)
    requires cfg.stop == Never
    ensures ScanIdx(cfg, s, t).found == (Hits(s.lines, cfg.keyword, cfg.opts.caseSensitive) != [])
  {
    assert s.lines[..|s.lines|] == s.lines;
    assert Cut(|s.lines|, t, cfg.stop) == |s.lines|;
  }

  /** Without a stop request and without a read failure, reading a text reports exactly the
      hits that `Selected` picks, and "match once" stops reading right after the first hit. */
  lemma WholeTextIdx(cfg: Config, s: Stream, t: nat)
    requires cfg.stop == Never && !s.fails
    ensures var x := ScanIdx(cfg, s, t);
            var h := Hits(s.lines, cfg.keyword, cfg.opts.caseSensitive);
      x.idx == Selected(h, Policy(cfg.opts.matchOnce, cfg.opts.useLast))
      && x.found == (h != []) && !x.raised
      && x.checks == t + (if cfg.opts.matchOnce && h != [] then h[0] + 1 else |s.lines|)
  {
    var lines := s.lines;
    assert Cut(|lines|, t, cfg.stop) == |lines|;
    assert lines[..|lines|] == lines;
  }

  lemma ScanWholeText(cfg: Config, s: Stream, t: nat, path: string, name: string)
    requires cfg.stop == Never && !s.fails
    ensures var r := ScanSpec(cfg, s, t, path, name);
            var h := Hits(s.lines, cfg.keyword, cfg.opts.caseSensitive);
      r.kept == HitRows(path, name, s.lines, Selected(h, Policy(cfg.opts.matchOnce, cfg.opts.useLast)))
      && r.found == (h != []) && !r.raised
      && r.checks == t + (if cfg.opts.matchOnce && h != [] then h[0] + 1 else |s.lines|)
  {
    WholeTextIdx(cfg, s, t);
  }

  /** The hits seen so far are a prefix of the hits seen later. */
  lemma {:induction false} HitsPrefix(lines: seq<string>, j: nat, k: nat, needle: string, cs: bool)
    requires j <= k <= |lines|
    ensures Hits(lines[..j], needle, cs) <= Hits(lines[..k], needle, cs)
    decreases k - j
  {
    if j < k {
      HitsPrefix(lines, j, k - 1, needle, cs);
      HitsStep(lines, k - 1, needle, cs);
    }
  }

  /** The row of the last hit among the lines read so far, if any. */
  function LastHitRow(path: string, name: string, lines: seq<string>, h: seq<nat>): Option<Row>
    requires forall k :: 0 <= k < |h| ==> h[k] < |lines|
  {
    if h == [] then None else Some(HitRow(path, name, lines, h[|h| - 1]))
  }

  /** What the line loop holds after reading the first `i` lines without stopping early:
      the rows collected so far and the remembered last hit. */
  datatype Held = Held(matches: seq<Row>, last: Option<Row>)

  function HeldOf(cfg: Config, lines: seq<string>, h: seq<nat>, path: string, name: string): Held
    requires forall k :: 0 <= k < |h| ==> h[k] < |lines|
  {
    if cfg.opts.matchOnce then Held([], None)
    else if cfg.opts.useLast then Held([], LastHitRow(path, name, lines, h))
    else Held(HitRows(path, name, lines, h), None)
  }

  /** One more hit read: it is appended ("all hits") or remembered ("last match only"). */
  lemma HeldStep(cfg: Config, lines: seq<string>, h: seq<nat>, i: nat, path: string, name: string)
    requires i < |lines| && !cfg.opts.matchOnce
    requires forall k :: 0 <= k < |h| ==> h[k] < |lines|
    ensures var before := HeldOf(cfg, lines, h, path, name);
            var row := HitRow(path, name, lines, i);
      HeldOf(cfg, lines, h + [i], path, name)
      == if cfg.opts.useLast then Held([], Some(row)) else Held(before.matches + [row], None)
  {
    if !cfg.opts.useLast {
      assert (h + [i])[..|h|] == h;
    }
  }

  /** The hits among the first `i` lines, as the line loop records them one line at a time. */
  ghost function HitsTo(lines: seq<string>, i: nat, needle: string, cs: bool): seq<nat>
    requires i <= |lines|
    decreases i
  {
    if i == 0 then [] else HitsTo(lines, i - 1, needle, cs) + (if IsHit(lines[i - 1], needle, cs) then [i - 1] else [])
  }

  lemma {:induction false} HitsToIsHits(lines: seq<string>, i: nat, needle: string, cs: bool)
    requires i <= |lines|
    ensures HitsTo(lines, i, needle, cs) == Hits(lines[..i], needle, cs)
    decreases i
  {
    if i > 0 {
      HitsToIsHits(lines, i - 1, needle, cs);
      HitsStep(lines, i - 1, needle, cs);
    }
  }

  /** What the line loop holds after the first `i` lines, built one line at a time: a hit
      is appended ("all hits") or remembered ("last match only"); "match once" holds
      nothing until it stops. */
  ghost function HeldTo(cfg: Config, lines: seq<string>, i: nat, path: string, name: string): Held
    requires i <= |lines|
    decreases i
  {
    if i == 0 then Held([], None)
    else
      var before := HeldTo(cfg, lines, i - 1, path, name);
      if cfg.opts.matchOnce || !IsHit(lines[i - 1], cfg.keyword, cfg.opts.caseSensitive) then before
      else if cfg.opts.useLast then Held(before.matches, Some(HitRow(path, name, lines, i - 1)))
      else Held(before.matches + [HitRow(path, name, lines, i - 1)], before.last)
  }

  lemma {:induction false} HeldToIsHeldOf(cfg: Config, lines: seq<string>, i: nat, path: string, name: string)
    requires i <= |lines|
    ensures HeldTo(cfg, lines, i, path, name)
         == HeldOf(cfg, lines, Hits(lines[..i], cfg.keyword, cfg.opts.caseSensitive), path, name)
    decreases i
  {
    if i > 0 {
      var cs := cfg.opts.caseSensitive;
      var n := i - 1;
      HeldToIsHeldOf(cfg, lines, n, path, name);
      HitsStep(lines, n, cfg.keyword, cs);
      var h := Hits(lines[..n], cfg.keyword, cs);
      if cfg.opts.matchOnce {
      } else if !IsHit(lines[n], cfg.keyword, cs) {
        assert Hits(lines[..i], cfg.keyword, cs) == h;
      } else {
        assert Hits(lines[..i], cfg.keyword, cs) == h + [n];
        HeldStep(cfg, lines, h, n, path, name);
      }
    }
  }

  /** The line loop stopped by "match once" at its first hit (line `i - 1`): one row. */
  lemma EndAtFirstHit(cfg: Config, s: Stream, t: nat, path: string, name: string, i: nat)
    requires cfg.opts.matchOnce && 0 < i <= Cut(|s.lines|, t, cfg.stop)
    requires Hits(s.lines[..i], cfg.keyword, cfg.opts.caseSensitive) == [i - 1]
    ensures ScanSpec(cfg, s, t, path, name) == TextScan([HitRow(path, name, s.lines, i - 1)], true, false, t + i)
  {
    FirstHitIdx(cfg, s, t, i);
    assert [i - 1][..0] == [];
    assert HitRows(path, name, s.lines, [i - 1]) == [HitRow(path, name, s.lines, i - 1)];
  }

  lemma FirstHitIdx(cfg: Config, s: Stream, t: nat, i: nat)
    requires cfg.opts.matchOnce && 0 < i <= Cut(|s.lines|, t, cfg.stop)
    requires Hits(s.lines[..i], cfg.keyword, cfg.opts.caseSensitive) == [i - 1]
    ensures ScanIdx(cfg, s, t) == IdxScan([i - 1], true, false, t + i)
  {
    var c := Cut(|s.lines|, t, cfg.stop);
    var h := Hits(s.lines[..c], cfg.keyword, cfg.opts.caseSensitive);
    HitsPrefix(s.lines, i, c, cfg.keyword, cfg.opts.caseSensitive);
    FirstOfPrefix(Hits(s.lines[..i], cfg.keyword, cfg.opts.caseSensitive), h);
  }

  lemma FirstOfPrefix(a: seq<nat>, b: seq<nat>)
    requires a != [] && a <= b
    ensures b != [] && b[0] == a[0]
  {
  }

  /** The line loop stopped by the stop flag before line `i`, or ran to the end (`i` lines,
      then the reader's exception if it has one). */
  lemma EndAtCut(cfg: Config, s: Stream, t: nat, path: string, name: string, i: nat,
                 stopped: bool, matches: seq<Row>, last: Option<Row>)
    requires i == Cut(|s.lines|, t, cfg.stop)
    requires stopped ==> i < |s.lines|
    requires !stopped ==> i == |s.lines|
    requires cfg.opts.matchOnce ==> last == None && Hits(s.lines[..i], cfg.keyword, cfg.opts.caseSensitive) == []
    requires Held(matches, last) == HeldOf(cfg, s.lines, Hits(s.lines[..i], cfg.keyword, cfg.opts.caseSensitive), path, name)
    ensures var raised := !stopped && s.fails;
            var kept := if !raised && cfg.opts.useLast && last.Some? then [last.value] else matches;
            var h := Hits(s.lines[..i], cfg.keyword, cfg.opts.caseSensitive);
      ScanSpec(cfg, s, t, path, name)
      == TextScan(kept, h != [], raised, t + i + (if stopped then 1 else 0))
  {
  }

  /** The state of the line loop of a text whose first stop-flag read is the `t`-th, after
      `i` lines: `halted` when the loop was left by `break`, `byStop` when the stop flag
      caused it, `h` the hits read so far. */
  ghost predicate LoopInv(cfg: Config, lines: seq<string>, t: nat, path: string, name: string,
                          i: nat, halted: bool, byStop: bool, h: seq<nat>,
                          matches: seq<Row>, last: Option<Row>, found: bool, checks: nat)
  {
    var c := Cut(|lines|, t, cfg.stop);
    i <= c <= |lines| && h == HitsTo(lines, i, cfg.keyword, cfg.opts.caseSensitive) && found == (h != [])
    && (!halted ==> !byStop && checks == t + i)
    && (halted && byStop ==> i == c < |lines| && checks == t + i + 1)
    && (halted && !byStop ==>
          cfg.opts.matchOnce && 0 < i && h == [i - 1]
          && matches == [HitRow(path, name, lines, i - 1)] && checks == t + i)
    && (cfg.opts.matchOnce ==> last == None)
    && (cfg.opts.matchOnce && (!halted || byStop) ==> h == [])
    && (!halted || byStop ==> Held(matches, last) == HeldTo(cfg, lines, i, path, name))
  }

  /** The stop flag seen before line `i`: the loop is left. */
  lemma StopStep(cfg: Config, lines: seq<string>, t: nat, path: string, name: string,
                 i: nat, h: seq<nat>, matches: seq<Row>, last: Option<Row>, found: bool)
    requires LoopInv(cfg, lines, t, path, name, i, false, false, h, matches, last, found, t + i)
    requires i < |lines| && IsSet(cfg.stop, t + i)
    ensures LoopInv(cfg, lines, t, path, name, i, true, true, h, matches, last, found, t + i + 1)
  {
  }

  /** Line `i` read with the stop flag clear. */
  lemma LineStep(cfg: Config, lines: seq<string>, t: nat, path: string, name: string,
                 i: nat, h: seq<nat>, matches: seq<Row>, last: Option<Row>, found: bool)
    requires LoopInv(cfg, lines, t, path, name, i, false, false, h, matches, last, found, t + i)
    requires i < |lines| && !IsSet(cfg.stop, t + i)
    ensures var hit := IsHit(lines[i], cfg.keyword, cfg.opts.caseSensitive);
            var row := HitRow(path, name, lines, i);
            var mo := cfg.opts.matchOnce;
            var ul := cfg.opts.useLast;
      LoopInv(cfg, lines, t, path, name, i + 1, mo && hit, false,
              h + (if hit then [i] else []),
              if !hit then matches else if mo then [row] else if ul then matches else matches + [row],
              if hit && !mo && ul then Some(row) else last,
              found || hit, t + i + 1)
  {
  }

  /** The line loop's end state, finished as the source finishes it, is the one `ScanSpec`
      describes. */
  lemma LoopEnd(cfg: Config, s: Stream, t: nat, path: string, name: string,
                i: nat, halted: bool, byStop: bool, h: seq<nat>,
                matches: seq<Row>, last: Option<Row>, found: bool, checks: nat)
    requires LoopInv(cfg, s.lines, t, path, name, i, halted, byStop, h, matches, last, found, checks)
    requires !halted ==> i == |s.lines|
    ensures var raised := !halted && s.fails;
            var kept := if !raised && cfg.opts.useLast && last.Some? then [last.value] else matches;
      ScanSpec(cfg, s, t, path, name) == TextScan(kept, found, raised, checks)
  {
    HitsToIsHits(s.lines, i, cfg.keyword, cfg.opts.caseSensitive);
    HeldToIsHeldOf(cfg, s.lines, i, path, name);
    if halted && !byStop {
      EndAtFirstHit(cfg, s, t, path, name, i);
    } else {
      EndAtCut(cfg, s, t, path, name, i, halted, matches, last);
    }
  }

  // ---------------------------------------------------------------- the worker

  /** A text whose first stop-flag read already sees the flag set yields nothing and costs
      one read when it has a line, and none when it has none. */
  lemma ScanAfterStop(cfg: Config, s: Stream, t: nat, path: string, name: string)
    requires IsSet(cfg.stop, t)
    ensures var r := ScanSpec(cfg, s, t, path, name);
      r.kept == [] && !r.found
      && (|s.lines| > 0 ==> !r.raised && r.checks == t + 1)
      && (|s.lines| == 0 ==> r.raised == s.fails && r.checks == t)
  {
    assert Cut(|s.lines|, t, cfg.stop) == 0;
    assert s.lines[..0] == [];
  }

  // ---------------------------------------------------------------- files and archives

  const NoMatchText: string := "[No match found]"
  const InstallSevenZipText: string := "Install py7zr to scan .7z (pip install py7zr)"

  /** What one file, archive member or archive adds: its rows (in CSV order), the matches
      it adds to the total, and the number of stop-flag reads made once it is done. */
  datatype Outcome = Outcome(rows: seq<Row>, count: nat, checks: nat)

  predicate IsNumRow(r: Row) {
    r.line.Num?
  }

  predicate IsErrorRow(r: Row) {
    r.line.Error?
  }

  /** The rows whose line-number column holds a number: the ones counted as matches. */
  function NumCount(rows: seq<Row>): nat {
    Count(rows, IsNumRow)
  }

  function ErrorCount(rows: seq<Row>): nat {
    Count(rows, IsErrorRow)
  }

  /** A plain file: its hits, then an ERROR row if reading it raised; the rows are written
      when a line held the keyword, or as one "[No match found]" row when nothing was
      collected and such files are wanted. Every row written for a file with a hit is
      counted, the ERROR row included. */
  function PlainOutcome(cfg: Config, e: Entry, t: nat): Outcome {
    var name := Basename(e.path);
    PlainOf(e.relPath, name, e.content.error, ScanSpec(cfg, e.content, t, e.relPath, name), cfg.opts.includeNoMatch)
  }

  /** A plain file, given what reading it gave. */
  function PlainOf(relPath: string, name: string, err: string, x: TextScan, includeNoMatch: bool): Outcome {
    var got := x.kept + (if x.raised then [Row(relPath, name, Error, "Could not read file: " + err)] else []);
    var write := x.found || (includeNoMatch && got == []);
    var rows := if !write then [] else if got == [] && includeNoMatch then [Row(relPath, name, Dash, NoMatchText)] else got;
    Outcome(rows, if x.found then |rows| else 0, x.checks)
  }

  /** The members of an archive that are read: not directories (by the zip flag, or by a
      trailing separator in a 7z name) and with an inner name ending in one of the
      extensions. */
  predicate MemberEligible(m: Member, isZip: bool, exts: seq<string>) {
    (if isZip then !m.isDir else !EndsWith(m.name, "/") && !EndsWith(m.name, "\\"))
    && EndsWithAny(Lower(m.name), exts)
  }

  /** The rows one archive member leaves, given what reading it gave: a read error
      replaces whatever was collected by one ERROR row; with nothing collected, a
      "[No match found]" row when such files are wanted. */
  function MemberRowsOf(p: string, name: string, err: string, x: TextScan, includeNoMatch: bool): seq<Row> {
    var got := if x.raised then [Row(p, name, Error, "Could not read member: " + err)] else x.kept;
    if got != [] then got else if includeNoMatch then [Row(p, name, Dash, NoMatchText)] else []
  }

  /** One archive member: path column `archive::member`; only rows with a line number are
      counted. */
  function MemberOutcome(cfg: Config, apath: string, m: Member, t: nat): Outcome {
    var p := apath + "::" + m.name;
    var name := Basename(m.name);
    var x := ScanSpec(cfg, m.content, t, p, name);
    var rows := MemberRowsOf(p, name, m.content.error, x, cfg.opts.includeNoMatch);
    Outcome(rows, NumCount(rows), x.checks)
  }

  /** The members among the first `k` that `keep` selects, each processed by `step` from
      the stop-flag read count the previous one left, their rows concatenated in archive
      order. */
  function MembersTo(step: (Member, nat) -> Outcome, keep: Member -> bool, ms: seq<Member>, k: nat, t: nat): Outcome
    requires k <= |ms|
    decreases k
  {
    if k == 0 then Outcome([], 0, t)
    else
      var before := MembersTo(step, keep, ms, k - 1, t);
      if !keep(ms[k - 1]) then before
      else
        var o := step(ms[k - 1], before.checks);
        Outcome(before.rows + o.rows, before.count + o.count, o.checks)
  }

  /** The member loop has processed the first `k` members: `rows` were written after the
      CSV rows `csv0`, and the archive's own preview is their cap. */
  ghost predicate MembersInv(step: (Member, nat) -> Outcome, keep: Member -> bool, showAll: bool,
                             ms: seq<Member>, k: nat, t: nat, rows: seq<Row>, count: nat, checks: nat,
                             csv0: seq<Row>, csv: seq<Row>, preview: seq<Row>)
  {
    k <= |ms| && MembersTo(step, keep, ms, k, t) == Outcome(rows, count, checks)
    && csv == csv0 + rows && preview == Cap(rows, showAll)
  }

  lemma MembersInvSkip(step: (Member, nat) -> Outcome, keep: Member -> bool, showAll: bool,
                       ms: seq<Member>, k: nat, t: nat, rows: seq<Row>, count: nat, checks: nat,
                       csv0: seq<Row>, csv: seq<Row>, preview: seq<Row>)
    requires k < |ms| && !keep(ms[k])
    requires MembersInv(step, keep, showAll, ms, k, t, rows, count, checks, csv0, csv, preview)
    ensures MembersInv(step, keep, showAll, ms, k + 1, t, rows, count, checks, csv0, csv, preview)
  {
  }

  /** The state after reading member `k` from the `checks`-th flag read on. */
  lemma MembersInvRead(step: (Member, nat) -> Outcome, keep: Member -> bool, showAll: bool,
                       ms: seq<Member>, k: nat, t: nat, rows: seq<Row>, count: nat, checks: nat,
                       csv0: seq<Row>, csv: seq<Row>, o: Outcome, csv': seq<Row>, preview': seq<Row>)
    requires k < |ms| && keep(ms[k]) && o == step(ms[k], checks)
    requires MembersInv(step, keep, showAll, ms, k, t, rows, count, checks, csv0, csv, Cap(rows, showAll))
    requires csv' == csv + o.rows && preview' == Cap(rows + o.rows, showAll)
    ensures MembersInv(step, keep, showAll, ms, k + 1, t, rows + o.rows, count + o.count, o.checks,
                       csv0, csv', preview')
  {
    AppendAssoc(csv0, rows, o.rows);
  }

  /** A member step that gives MemberOutcome on every member and flag-read count. */
  ghost predicate MemberStepIs(cfg: Config, apath: string, step: (Member, nat) -> Outcome) {
    forall m, u {:trigger MemberOutcome(cfg, apath, m, u)} :: step(m, u) == MemberOutcome(cfg, apath, m, u)
  }

  /** A member filter that keeps exactly the eligible members. */
  ghost predicate KeepIs(cfg: Config, isZip: bool, keep: Member -> bool) {
    forall m {:trigger MemberEligible(m, isZip, cfg.exts)} :: keep(m) == MemberEligible(m, isZip, cfg.exts)
  }

  lemma MemberStepAgrees(cfg: Config, apath: string, isZip: bool)
    ensures MemberStepIs(cfg, apath, MemberStep(cfg, apath)) && KeepIs(cfg, isZip, MemberFilter(cfg, isZip))
  {
  }

  function MemberStep(cfg: Config, apath: string): (Member, nat) -> Outcome {
    (m: Member, u: nat) => MemberOutcome(cfg, apath, m, u)
  }

  function MemberFilter(cfg: Config, isZip: bool): Member -> bool {
    (m: Member) => MemberEligible(m, isZip, cfg.exts)
  }

  /** An archive: a `.zip` that cannot be opened gives one ERROR row; a `.7z` without the
      7z library gives one row telling to install it; otherwise its members in order. */
  function ArchiveOutcome(cfg: Config, e: Entry, t: nat): Outcome {
    var lower := Lower(e.path);
    var isZip := EndsWith(lower, ".zip");
    if !isZip && !EndsWith(lower, ".7z") then Outcome([], 0, t)
    else if !isZip && !cfg.sevenZip then
      Outcome([Row(e.path, Basename(e.path), Error, InstallSevenZipText)], 0, t)
    else match e.archive
      case Unreadable(err) => Outcome([Row(e.path, Basename(e.path), Error, "Could not open archive: " + err)], 0, t)
      case Readable(ms) => MembersTo(MemberStep(cfg, e.path), MemberFilter(cfg, isZip), ms, |ms|, t)
  }

  /** An entry of the file list goes to the archive scanner when its path ends in an
      archive suffix and archives are searched, and is read as a plain file otherwise. */
  function EntryOutcome(cfg: Config, e: Entry, t: nat): Outcome {
    if IsArchiveName(e.path) && cfg.archivesOn then ArchiveOutcome(cfg, e, t) else PlainOutcome(cfg, e, t)
  }

  /** The whole search after the first `k` entries of the file list: the rows written,
      the match total, the stop-flag reads, how many entries were processed, and whether
      the stop flag was seen at the top of an entry. */
  datatype Run = Run(rows: seq<Row>, count: nat, checks: nat, done: nat, stopped: bool)

  /** The search after the first `k` entries of the file list, each processed by `step`
      from a stop-flag read count: the flag is read at the top of every entry. */
  function RunTo(step: (Entry, nat) -> Outcome, stop: Stop, list: seq<Entry>, k: nat, t: nat): (r: Run)
    requires k <= |list|
    ensures r.done <= k
    decreases k
  {
    if k == 0 then Run([], 0, t, 0, false)
    else
      var before := RunTo(step, stop, list, k - 1, t);
      if before.stopped then before
      else if IsSet(stop, before.checks) then Run(before.rows, before.count, before.checks + 1, before.done, true)
      else
        var o := step(list[k - 1], before.checks + 1);
        Run(before.rows + o.rows, before.count + o.count, o.checks, before.done + 1, false)
  }

  function EntryStep(cfg: Config): (Entry, nat) -> Outcome {
    (e: Entry, u: nat) => EntryOutcome(cfg, e, u)
  }

  /** The whole search over the file list. */
  function Search(cfg: Config, list: seq<Entry>, t: nat): Run {
    RunTo(EntryStep(cfg), cfg.stop, list, |list|, t)
  }

  /** The progress values posted after the first `done` of `total` entries: every tenth
      entry and the last one. */
  function Posted(done: nat, total: nat): seq<nat>
    decreases done
  {
    if done == 0 then [] else Posted(done - 1, total) + PostAt(done, total)
  }

  /** The progress value posted once the `done`-th entry is finished, if any. */
  function PostAt(done: nat, total: nat): seq<nat> {
    if done % 10 == 0 || done == total then [done] else []
  }

  /** The value the progress bar shows: the last posted value, 0 before any. */
  function Shown(posted: seq<nat>): nat {
    if posted == [] then 0 else posted[|posted| - 1]
  }

  /** The preview: every row under "show all", else the first 1000. */
  function Cap(rows: seq<Row>, showAll: bool): (r: seq<Row>)
    ensures r <= rows
    ensures showAll ==> r == rows
    ensures !showAll ==> |r| == Min(PreviewCap, |rows|)
  {
    if showAll then rows else Take(rows, PreviewCap)
  }

  /** The hits a text yields are all numbered rows. */
  lemma KeptAreNum(cfg: Config, s: Stream, t: nat, path: string, name: string)
    ensures var x := ScanSpec(cfg, s, t, path, name);
      NumCount(x.kept) == |x.kept| && ErrorCount(x.kept) == 0
  {
    var x := ScanSpec(cfg, s, t, path, name);
    ScanRowsAreHits(cfg, s, t, path, name);
    CountAll(x.kept, IsNumRow);
    CountNone(x.kept, IsErrorRow);
  }

  /** No element passes. */
  lemma {:induction false} CountNone<T>(s: seq<T>, f: T -> bool)
    requires forall i :: 0 <= i < |s| ==> !f(s[i])
    ensures Count(s, f) == 0
    decreases |s|
  {
    if |s| > 0 {
      var n := |s| - 1;
      assert forall i :: 0 <= i < n ==> s[..n][i] == s[i];
      CountNone(s[..n], f);
    }
  }

  /** Which rows a plain file leaves: with a hit, the collected rows (and the ERROR row if
      reading then raised); without a hit, nothing when reading raised -- even when files
      without matches are wanted -- and otherwise one "[No match found]" row exactly when
      such files are wanted. */
  lemma PlainRows(cfg: Config, e: Entry, t: nat)
    ensures var name := Basename(e.path);
            var x := ScanSpec(cfg, e.content, t, e.relPath, name);
            var o := PlainOutcome(cfg, e, t);
      (x.found ==> o.rows != [] && o.rows[..|x.kept|] == x.kept
                   && |o.rows| == |x.kept| + (if x.raised then 1 else 0))
      && (!x.found && x.raised ==> o.rows == [])
      && (!x.found && !x.raised ==>
            o.rows == if cfg.opts.includeNoMatch then [Row(e.relPath, name, Dash, NoMatchText)] else [])
      && o.checks == x.checks
  {
    ScanBounds(cfg, e.content, t, e.relPath, Basename(e.path));
  }

  /** The match total of a plain file counts its numbered rows, plus its ERROR row when the
      file had a hit before reading raised. */
  lemma PlainCount(cfg: Config, e: Entry, t: nat)
    ensures var x := ScanSpec(cfg, e.content, t, e.relPath, Basename(e.path));
            var o := PlainOutcome(cfg, e, t);
      o.count == NumCount(o.rows) + (if x.found && x.raised then 1 else 0)
      && (x.found && x.raised ==> ErrorCount(o.rows) == 1)
  {
    var name := Basename(e.path);
    var x := ScanSpec(cfg, e.content, t, e.relPath, name);
    var err := [Row(e.relPath, name, Error, "Could not read file: " + e.content.error)];
    var got := x.kept + (if x.raised then err else []);
    KeptAreNum(cfg, e.content, t, e.relPath, name);
    CountAppend(x.kept, if x.raised then err else [], IsNumRow);
    CountAppend(x.kept, if x.raised then err else [], IsErrorRow);
    assert Count(err, IsNumRow) == 0 && Count(err, IsErrorRow) == 1 by {
      assert err[..0] == [];
    }
    var sentinel := [Row(e.relPath, name, Dash, NoMatchText)];
    assert Count(sentinel, IsNumRow) == 0 by {
      assert sentinel[..0] == [];
    }
  }

  /** A member whose reading raised leaves one ERROR row and no match; otherwise its hits,
      all counted, or a "[No match found]" row when it has none and such files are wanted. */
  lemma MemberRows(cfg: Config, apath: string, m: Member, t: nat)
    ensures var p := apath + "::" + m.name;
            var x := ScanSpec(cfg, m.content, t, p, Basename(m.name));
            var o := MemberOutcome(cfg, apath, m, t);
      (x.raised ==> |o.rows| == 1 && o.rows[0].line == Error && o.count == 0)
      && (!x.raised && x.kept != [] ==> o.rows == x.kept && o.count == |x.kept|)
      && (!x.raised && x.kept == [] ==>
            o.count == 0
            && o.rows == if cfg.opts.includeNoMatch then [Row(p, Basename(m.name), Dash, NoMatchText)] else [])
  {
    var p := apath + "::" + m.name;
    KeptAreNum(cfg, m.content, t, p, Basename(m.name));
    MemberRowsCount(p, Basename(m.name), m.content.error,
                    ScanSpec(cfg, m.content, t, p, Basename(m.name)), cfg.opts.includeNoMatch);
  }

  lemma MemberRowsCount(p: string, name: string, err: string, x: TextScan, includeNoMatch: bool)
    requires NumCount(x.kept) == |x.kept|
    ensures var rows := MemberRowsOf(p, name, err, x, includeNoMatch);
      NumCount(rows) == if x.raised then 0 else |x.kept|
  {
    var rows := MemberRowsOf(p, name, err, x, includeNoMatch);
    if x.raised || x.kept == [] {
      CountNone(rows, IsNumRow);
    }
  }

  /** Members are not skipped once the stop flag is set: each later member with a line
      costs one read of the flag and, when files without matches are wanted, leaves a
      "[No match found]" row. */
  lemma MemberAfterStop(cfg: Config, apath: string, m: Member, t: nat)
    requires IsSet(cfg.stop, t) && |m.content.lines| > 0
    ensures var o := MemberOutcome(cfg, apath, m, t);
      o.checks == t + 1 && o.count == 0
      && o.rows == if cfg.opts.includeNoMatch then [Row(apath + "::" + m.name, Basename(m.name), Dash, NoMatchText)] else []
  {
    ScanAfterStop(cfg, m.content, t, apath + "::" + m.name, Basename(m.name));
    MemberRows(cfg, apath, m, t);
  }

  /** An archive's matches are exactly its numbered rows. */
  lemma {:induction false} MembersCount(step: (Member, nat) -> Outcome, keep: Member -> bool, ms: seq<Member>, k: nat, t: nat)
    requires k <= |ms|
    requires forall m, u :: step(m, u).count == NumCount(step(m, u).rows)
    ensures var o := MembersTo(step, keep, ms, k, t);
      o.count == NumCount(o.rows)
    decreases k
  {
    if k > 0 {
      MembersCount(step, keep, ms, k - 1, t);
      var before := MembersTo(step, keep, ms, k - 1, t);
      CountAppend(before.rows, step(ms[k - 1], before.checks).rows, IsNumRow);
    }
  }

  lemma ArchiveCount(cfg: Config, e: Entry, t: nat)
    ensures var o := ArchiveOutcome(cfg, e, t);
      o.count == NumCount(o.rows)
  {
    var o := ArchiveOutcome(cfg, e, t);
    var lower := Lower(e.path);
    var isZip := EndsWith(lower, ".zip");
    if !isZip && !EndsWith(lower, ".7z") {
    } else if (!isZip && !cfg.sevenZip) || e.archive.Unreadable? {
      CountNone(o.rows, IsNumRow);
    } else {
      MemberStepCount(cfg, e.path);
      MembersCount(MemberStep(cfg, e.path), MemberFilter(cfg, isZip), e.archive.members, |e.archive.members|, t);
    }
  }

  /** An archive member's matches are its numbered rows. */
  lemma MemberStepCount(cfg: Config, apath: string)
    ensures forall m, u :: MemberStep(cfg, apath)(m, u).count == NumCount(MemberStep(cfg, apath)(m, u).rows)
  {
  }

  /** The match total of one entry lies between its numbered rows and its numbered plus
      ERROR rows. */
  lemma EntryCount(cfg: Config, e: Entry, t: nat)
    ensures var o := EntryOutcome(cfg, e, t);
      NumCount(o.rows) <= o.count <= NumCount(o.rows) + ErrorCount(o.rows)
  {
    if IsArchiveName(e.path) && cfg.archivesOn {
      ArchiveCount(cfg, e, t);
    } else {
      PlainCount(cfg, e, t);
    }
  }

  lemma {:induction false} RunCount(step: (Entry, nat) -> Outcome, stop: Stop, list: seq<Entry>, k: nat, t: nat)
    requires k <= |list|
    requires forall e, u :: NumCount(step(e, u).rows) <= step(e, u).count <= NumCount(step(e, u).rows) + ErrorCount(step(e, u).rows)
    ensures var r := RunTo(step, stop, list, k, t);
      NumCount(r.rows) <= r.count <= NumCount(r.rows) + ErrorCount(r.rows)
    decreases k
  {
    if k > 0 {
      RunCount(step, stop, list, k - 1, t);
      var before := RunTo(step, stop, list, k - 1, t);
      var r := RunTo(step, stop, list, k, t);
      if !before.stopped && !IsSet(stop, before.checks) {
        var o := step(list[k - 1], before.checks + 1);
        assert r.rows == before.rows + o.rows && r.count == before.count + o.count;
        CountAppend(before.rows, o.rows, IsNumRow);
        CountAppend(before.rows, o.rows, IsErrorRow);
      } else {
        assert r.rows == before.rows && r.count == before.count;
      }
    }
  }

  /** The match total of a search lies between the numbered rows of its CSV and the
      numbered plus ERROR rows. */
  lemma SearchCount(cfg: Config, list: seq<Entry>, t: nat)
    ensures var r := Search(cfg, list, t);
      NumCount(r.rows) <= r.count <= NumCount(r.rows) + ErrorCount(r.rows)
  {
    forall e, u ensures NumCount(EntryStep(cfg)(e, u).rows) <= EntryStep(cfg)(e, u).count
                        <= NumCount(EntryStep(cfg)(e, u).rows) + ErrorCount(EntryStep(cfg)(e, u).rows) {
      EntryCount(cfg, e, u);
    }
    RunCount(EntryStep(cfg), cfg.stop, list, |list|, t);
  }

  /** Once the stop flag is seen at the top of an entry, nothing more happens. */
  lemma {:induction false} StoppedStays(step: (Entry, nat) -> Outcome, stop: Stop, list: seq<Entry>, j: nat, k: nat, t: nat)
    requires j <= k <= |list| && RunTo(step, stop, list, j, t).stopped
    ensures RunTo(step, stop, list, k, t) == RunTo(step, stop, list, j, t)
    decreases k - j
  {
    if j < k {
      StoppedStays(step, stop, list, j, k - 1, t);
    }
  }

  /** A stop request seen right after the first entry leaves exactly that entry's rows. */
  lemma CancelAfterFirst(cfg: Config, list: seq<Entry>, t: nat)
    requires |list| >= 2 && !IsSet(cfg.stop, t)
    requires IsSet(cfg.stop, EntryOutcome(cfg, list[0], t + 1).checks)
    ensures var r := Search(cfg, list, t);
      r.stopped && r.done == 1 && r.rows == EntryOutcome(cfg, list[0], t + 1).rows
  {
    StopAfterFirst(EntryStep(cfg), cfg.stop, list, t);
  }

  lemma StopAfterFirst(step: (Entry, nat) -> Outcome, stop: Stop, list: seq<Entry>, t: nat)
    requires |list| >= 2 && !IsSet(stop, t)
    requires IsSet(stop, step(list[0], t + 1).checks)
    ensures var r := RunTo(step, stop, list, |list|, t);
      r.stopped && r.done == 1 && r.rows == step(list[0], t + 1).rows
  {
    assert RunTo(step, stop, list, 1, t).rows == [] + step(list[0], t + 1).rows;
    assert RunTo(step, stop, list, 2, t).stopped;
    StoppedStays(step, stop, list, 2, |list|, t);
  }

  /** Progress is posted at every tenth entry and at the last, in increasing order. */
  lemma {:induction false} PostedCadence(done: nat, total: nat)
    ensures forall k :: 0 <= k < |Posted(done, total)| ==>
      1 <= Posted(done, total)[k] <= done && (Posted(done, total)[k] % 10 == 0 || Posted(done, total)[k] == total)
    ensures forall j, k :: 0 <= j < k < |Posted(done, total)| ==> Posted(done, total)[j] < Posted(done, total)[k]
    ensures forall d :: 1 <= d <= done && (d % 10 == 0 || d == total) ==> d in Posted(done, total)
    decreases done
  {
    if done > 0 {
      PostedCadence(done - 1, total);
      var q := Posted(done - 1, total);
      var p := Posted(done, total);
      assert p == q + PostAt(done, total);
      assert forall k :: 0 <= k < |q| ==> p[k] == q[k] && q[k] < done;
    }
  }

  /** What the cancelled status reports as processed: the last multiple of 10 reached, or
      the total once every entry was done; it can lag behind by up to nine entries. */
  lemma {:induction false} ShownProgress(done: nat, total: nat)
    requires done <= total
    ensures Shown(Posted(done, total)) == if done == total then total else done - done % 10
    decreases done
  {
    if done > 0 {
      ShownProgress(done - 1, total);
      var q := Posted(done - 1, total);
      assert Posted(done, total) == q + PostAt(done, total);
      if done % 10 == 0 || done == total {
        assert Shown(Posted(done, total)) == done;
      } else {
        assert (done - 1) % 10 == done % 10 - 1;
        assert Shown(Posted(done, total)) == Shown(q);
      }
    }
  }

  /** Appending one row to a preview that is the cap of the rows so far. */
  lemma CapStep(rows: seq<Row>, r: Row, showAll: bool)
    ensures Cap(rows + [r], showAll)
         == if showAll || |Cap(rows, showAll)| < PreviewCap then Cap(rows, showAll) + [r] else Cap(rows, showAll)
  {
    if !showAll && |rows| < PreviewCap {
      assert Take(rows + [r], PreviewCap) == rows + [r];
    } else if !showAll {
      assert (rows + [r])[..PreviewCap] == rows[..PreviewCap];
    }
  }

  /** Merging an archive's own preview (its first 1000 rows) into the search preview: what
      fits in the room left is the cap of all rows so far. */
  lemma CapMerge(rows: seq<Row>, more: seq<Row>, showAll: bool)
    requires !showAll
    ensures var space := if PreviewCap - |Cap(rows, showAll)| > 0 then PreviewCap - |Cap(rows, showAll)| else 0;
      Cap(rows + more, showAll)
      == if space > 0 then Cap(rows, showAll) + Take(Cap(more, showAll), space) else Cap(rows, showAll)
  {
    if |rows| < PreviewCap {
      var space := PreviewCap - |rows|;
      if |more| <= space {
        assert Take(rows + more, PreviewCap) == rows + more;
      } else {
        assert (rows + more)[..PreviewCap] == rows + more[..space];
      }
    } else {
      assert (rows + more)[..PreviewCap] == rows[..PreviewCap];
    }
  }

  /** The file loop has handled the first `i` entries without seeing the stop flag, each
      by `step`: the CSV holds `csv0` then `written`, the preview is their cap, and the
      progress values posted so far follow `prog0`. */
  ghost predicate FilesInv(step: (Entry, nat) -> Outcome, stop: Stop, showAll: bool, list: seq<Entry>, i: nat, t: nat,
                           written: seq<Row>, count: nat, checks: nat,
                           csv0: seq<Row>, csv: seq<Row>, preview: seq<Row>,
                           prog0: seq<nat>, progress: seq<nat>)
  {
    i <= |list| && RunTo(step, stop, list, i, t) == Run(written, count, checks, i, false)
    && csv == csv0 + written && preview == Cap(written, showAll)
    && progress == prog0 + Posted(i, |list|)
  }

  /** The stop flag seen at the top of entry `i` ends the search there. */
  lemma FilesStop(step: (Entry, nat) -> Outcome, stop: Stop, showAll: bool, list: seq<Entry>, i: nat, t: nat,
                  written: seq<Row>, count: nat, checks: nat,
                  csv0: seq<Row>, csv: seq<Row>, preview: seq<Row>, prog0: seq<nat>, progress: seq<nat>)
    requires i < |list| && IsSet(stop, checks)
    requires FilesInv(step, stop, showAll, list, i, t, written, count, checks, csv0, csv, preview, prog0, progress)
    ensures RunTo(step, stop, list, |list|, t) == Run(written, count, checks + 1, i, true)
  {
    StoppedStays(step, stop, list, i + 1, |list|, t);
  }

  /** Entry `i` processed by `step`, its rows appended to the CSV and to the preview one by
      one. */
  lemma FilesNext(step: (Entry, nat) -> Outcome, stop: Stop, showAll: bool, list: seq<Entry>, i: nat, t: nat,
                  written: seq<Row>, count: nat, checks: nat,
                  csv0: seq<Row>, csv: seq<Row>, preview: seq<Row>, prog0: seq<nat>, progress: seq<nat>,
                  u: nat, o: Outcome, csv': seq<Row>, preview': seq<Row>, progress': seq<nat>)
    requires i < |list| && !IsSet(stop, checks)
    requires FilesInv(step, stop, showAll, list, i, t, written, count, checks, csv0, csv, preview, prog0, progress)
    requires u == checks + 1 && o == step(list[i], u)
    requires csv' == csv + o.rows && preview' == Cap(written + o.rows, showAll)
    requires progress' == if (i + 1) % 10 == 0 || i + 1 == |list| then progress + [i + 1] else progress
    ensures FilesInv(step, stop, showAll, list, i + 1, t, written + o.rows, count + o.count, o.checks,
                     csv0, csv', preview', prog0, progress')
  {
    AppendAssoc(csv0, written, o.rows);
    AppendAssoc(prog0, Posted(i, |list|), PostAt(i + 1, |list|));
    assert progress + [] == progress;
  }

  /** Merging an archive's own preview into the room left in the search preview gives the
      cap of all rows so far. */
  lemma MergeIsCap(written: seq<Row>, rows: seq<Row>, showAll: bool)
    ensures var preview := Cap(written, showAll);
            var arch := Cap(rows, showAll);
            var space := if PreviewCap - |preview| > 0 then PreviewCap - |preview| else 0;
      (if showAll then preview + arch else if space > 0 then preview + Take(arch, space) else preview)
      == Cap(written + rows, showAll)
  {
    if !showAll {
      CapMerge(written, rows, showAll);
    }
  }

  /** A search step that gives EntryOutcome on every entry and flag-read count. */
  ghost predicate Agrees(cfg: Config, step: (Entry, nat) -> Outcome) {
    forall e, u {:trigger EntryOutcome(cfg, e, u)} :: step(e, u) == EntryOutcome(cfg, e, u)
  }

  lemma EntryStepAgrees(cfg: Config)
    ensures Agrees(cfg, EntryStep(cfg))
  {
  }

  /** Without a stop request every entry is processed. */
  lemma {:induction false} NeverStopped(step: (Entry, nat) -> Outcome, list: seq<Entry>, k: nat, t: nat)
    requires k <= |list|
    ensures RunTo(step, Never, list, k, t).done == k && !RunTo(step, Never, list, k, t).stopped
    decreases k
  {
    if k > 0 {
      NeverStopped(step, list, k - 1, t);
    }
  }

  /** A search stopped at the top of an entry reports "cancelled": the flag stays set for
      the final read. */
  lemma StoppedIsCancelled(step: (Entry, nat) -> Outcome, stop: Stop, list: seq<Entry>, k: nat, t: nat)
    requires k <= |list| && RunTo(step, stop, list, k, t).stopped
    ensures IsSet(stop, RunTo(step, stop, list, k, t).checks)
  {
    StoppedFlag(step, stop, list, k, t);
  }

  lemma {:induction false} StoppedFlag(step: (Entry, nat) -> Outcome, stop: Stop, list: seq<Entry>, k: nat, t: nat)
    requires k <= |list|
    ensures var r := RunTo(step, stop, list, k, t);
      r.stopped ==> r.checks > 0 && IsSet(stop, r.checks - 1)
    decreases k
  {
    if k > 0 {
      StoppedFlag(step, stop, list, k - 1, t);
    }
  }

  /** The final status line. */
  datatype Status = NoFileTypes | Cancelled(processed: nat) | Complete(matches: nat, files: nat)

  /** The status a search ends with: no candidate files at all; "cancelled" with the
      progress value shown when the flag is set at the final read; "complete" otherwise. */
  function SearchStatus(cfg: Config, walk: seq<Entry>): Status {
    var list := FileList(walk, cfg.exts, cfg.archivesOn);
    var r := Search(cfg, list, 0);
    if list == [] then NoFileTypes
    else if IsSet(cfg.stop, r.checks) then Cancelled(Shown(Posted(r.done, |list|)))
    else Complete(r.count, |list|)
  }

  /** Without a stop request a search with candidate files completes, having processed
      every one of them. */
  lemma CompleteWithoutStop(cfg: Config, walk: seq<Entry>)
    requires cfg.stop == Never
    ensures var list := FileList(walk, cfg.exts, cfg.archivesOn);
      list != [] ==> Search(cfg, list, 0).done == |list|
                     && SearchStatus(cfg, walk) == Complete(Search(cfg, list, 0).count, |list|)
  {
    var list := FileList(walk, cfg.exts, cfg.archivesOn);
    NeverStopped(EntryStep(cfg), list, |list|, 0);
  }

  /** A search that saw the stop flag at the top of an entry ends "cancelled", reporting
      the last multiple of ten entries reached. */
  lemma StoppedReportsCancelled(cfg: Config, walk: seq<Entry>)
    ensures var list := FileList(walk, cfg.exts, cfg.archivesOn);
            var r := Search(cfg, list, 0);
      r.stopped ==> SearchStatus(cfg, walk) == Cancelled(r.done - r.done % 10)
  {
    var list := FileList(walk, cfg.exts, cfg.archivesOn);
    var r := Search(cfg, list, 0);
    if r.stopped {
      StoppedIsCancelled(EntryStep(cfg), cfg.stop, list, |list|, 0);
      ShownProgress(r.done, |list|);
      if r.done == |list| {
        StoppedBeforeLast(EntryStep(cfg), cfg.stop, list, |list|, 0);
      }
    }
  }

  /** A stopped search has skipped at least one entry. */
  lemma {:induction false} StoppedBeforeLast(step: (Entry, nat) -> Outcome, stop: Stop, list: seq<Entry>, k: nat, t: nat)
    requires k <= |list|
    ensures RunTo(step, stop, list, k, t).stopped ==> RunTo(step, stop, list, k, t).done < k
    decreases k
  {
    if k > 0 {
      StoppedBeforeLast(step, stop, list, k - 1, t);
    }
  }

  /** A stop request does not always leave a prefix of what the whole search writes: with
      "last match only", a file cut short by the stop flag writes the last hit among the
      lines read so far, which the whole search replaces by a later hit. Here the file
      `a.txt` has two lines holding the keyword; the flag, seen set before the second
      line, leaves the row of line 1, while the whole search writes the row of line 2. */
  lemma CancelNotPrefix()
    ensures var e := TwoHitFile();
      var cut := Search(LastOnly(FromCheck(2)), [e], 0);
      var whole := Search(LastOnly(Never), [e], 0);
      cut.rows == [Row("a.txt", "a.txt", Num(1), "ab")]
      && whole.rows == [Row("a.txt", "a.txt", Num(2), "ab")]
      && !(cut.rows <= whole.rows)
  {
    TwoHitSearch(FromCheck(2), 1);
    TwoHitSearch(Never, 2);
    var cut := Search(LastOnly(FromCheck(2)), [TwoHitFile()], 0);
    var whole := Search(LastOnly(Never), [TwoHitFile()], 0);
    assert cut.rows[0] != whole.rows[0];
  }

  /** The search of the one file writes the row of line `n`. */
  lemma TwoHitSearch(stop: Stop, n: nat)
    requires (stop == FromCheck(2) && n == 1) || (stop == Never && n == 2)
    ensures Search(LastOnly(stop), [TwoHitFile()], 0).rows == [Row("a.txt", "a.txt", Num(n), "ab")]
  {
    TwoHitOutcome(stop, n);
    EntryStepAgrees(LastOnly(stop));
    OneEntryRun(EntryStep(LastOnly(stop)), stop, TwoHitFile());
  }

  /** A search of one entry with no stop request at its top writes that entry's rows. */
  lemma OneEntryRun(step: (Entry, nat) -> Outcome, stop: Stop, e: Entry)
    requires !IsSet(stop, 0)
    ensures RunTo(step, stop, [e], 1, 0).rows == step(e, 1).rows
  {
    assert RunTo(step, stop, [e], 0, 0).rows == [];
  }

  /** The search of `CancelNotPrefix`: keyword `ab`, case-sensitive, "last match only". */
  function LastOnly(stop: Stop): Config {
    Config("ab", Options(false, true, true, false, false), [".txt"], false, false, stop)
  }

  /** The file of `CancelNotPrefix`: two lines, both holding `ab`. */
  function TwoHitFile(): Entry {
    Entry("a.txt", "a.txt", "a.txt", Stream(["ab\n", "ab\n"], false, ""), Unreadable(""))
  }

  lemma NoSepName()
    ensures Basename("a.txt") == "a.txt"
  {
    NameStartBounds("a.txt");
    assert forall j :: 0 <= j < 5 ==> !IsSep("a.txt"[j]);
    assert "a.txt"[0..] == "a.txt";
  }

  /** Read as the first entry, the file writes the row of line `n`: the last hit read. */
  lemma TwoHitOutcome(stop: Stop, n: nat)
    requires (stop == FromCheck(2) && n == 1) || (stop == Never && n == 2)
    ensures EntryOutcome(LastOnly(stop), TwoHitFile(), 1).rows == [Row("a.txt", "a.txt", Num(n), "ab")]
  {
    var s := TwoHitFile().content;
    TwoHitIdx(stop, n);
    assert LineText("ab\n") == "ab" by {
      assert "ab\n"[..2] == "ab";
    }
    assert HitRows("a.txt", "a.txt", s.lines, [n - 1]) == [Row("a.txt", "a.txt", Num(n), "ab")];
    NoSepName();
  }

  /** Both lines hold the keyword; the stop flag seen before the second line leaves the
      first as the last hit read. */
  lemma TwoHitIdx(stop: Stop, n: nat)
    requires (stop == FromCheck(2) && n == 1) || (stop == Never && n == 2)
    ensures ScanIdx(LastOnly(stop), TwoHitFile().content, 1) == IdxScan([n - 1], true, false, 3)
  {
    var s := TwoHitFile().content;
    assert Contains("ab\n", "ab");
    assert s.lines[..1] == ["ab\n"];
    assert s.lines[..1][..0] == [];
    assert Hits(s.lines[..1], "ab", true) == [0];
    assert s.lines[..2] == s.lines;
    assert Hits(s.lines, "ab", true) == [0, 1];
  }

  /** The search worker: the data rows written to the temporary CSV (its header row is not
      modelled), the number of reads of the stop flag so far, and the values posted to the
      progress bar. */
  class Scanner {
    const cfg: Config
    var csv: seq<Row>
    var flagChecks: nat
    var progress: seq<nat>

    /** The worker of a search that `Start` accepted. */
    constructor (isDir: bool, keywordField: string, extField: string, opts: Options,
                 archivesOn: bool, sevenZip: bool, stop: Stop)
      requires Start(isDir, keywordField, extField, opts, archivesOn, sevenZip, stop).Some?
      ensures cfg == Start(isDir, keywordField, extField, opts, archivesOn, sevenZip, stop).value
      ensures csv == [] && flagChecks == 0 && progress == []
    {
      cfg := Start(isDir, keywordField, extField, opts, archivesOn, sevenZip, stop).value;
      csv := [];
      flagChecks := 0;
      progress := [];
    }

    /** The line loop shared by plain files and archive members: before each line the stop
        flag is read; a hit is kept ("all hits"), remembered ("last match only") or kept
        while the loop ends ("match once"). */
    method ReadLines(s: Stream, path: string, name: string)
      returns (i: nat, halted: bool, matches: seq<Row>, last: Option<Row>, found: bool,
               ghost byStop: bool, ghost h: seq<nat>)
      modifies this`flagChecks
      ensures LoopInv(cfg, s.lines, old(flagChecks), path, name, i, halted, byStop, h, matches, last, found, flagChecks)
      ensures !halted ==> i == |s.lines|
    {
      ghost var t := flagChecks;
      var lines := s.lines;
      h := [];
      matches := [];
      last := None;
      found := false;
      i := 0;
      halted := false;
      byStop := false;
      while i < |lines| && !halted
        invariant i <= |lines|
        invariant LoopInv(cfg, lines, t, path, name, i, halted, byStop, h, matches, last, found, flagChecks)
        decreases |lines| - i, if halted then 0 else 1
      {
        if IsSet(cfg.stop, flagChecks) {
          StopStep(cfg, lines, t, path, name, i, h, matches, last, found);
          flagChecks := flagChecks + 1;
          halted := true;
          byStop := true;
        } else {
          halted, matches, last, found, h := ReadLine(lines, path, name, i, t, h, matches, last, found);
          i := i + 1;
        }
      }
    }

    /** Line `i` read with the stop flag clear: a hit is kept, remembered or kept while
        the loop ends, as the options say. */
    method ReadLine(lines: seq<string>, path: string, name: string, i: nat, ghost t: nat,
                    ghost h: seq<nat>, matches: seq<Row>, last: Option<Row>, found: bool)
      returns (halted: bool, matches': seq<Row>, last': Option<Row>, found': bool, ghost h': seq<nat>)
      requires i < |lines| && !IsSet(cfg.stop, flagChecks)
      requires LoopInv(cfg, lines, t, path, name, i, false, false, h, matches, last, found, flagChecks)
      modifies this`flagChecks
      ensures LoopInv(cfg, lines, t, path, name, i + 1, halted, false, h', matches', last', found', flagChecks)
    {
      LineStep(cfg, lines, t, path, name, i, h, matches, last, found);
      flagChecks := flagChecks + 1;
      halted, matches', last', found', h' := false, matches, last, found, h;
      if IsHit(lines[i], cfg.keyword, cfg.opts.caseSensitive) {
        found' := true;
        var matchData := HitRow(path, name, lines, i);
        h' := h + [i];
        if cfg.opts.matchOnce {
          matches' := [matchData];
          halted := true;
        } else if cfg.opts.useLast {
          last' := Some(matchData);
        } else {
          matches' := matches + [matchData];
        }
      }
    }

    /** Reading one text: the line loop, then the reader's exception if the loop ran to the
        end of a failing text, then the remembered last hit. */
    method ScanText(s: Stream, path: string, name: string) returns (r: TextScan)
      modifies this`flagChecks
      ensures r == ScanSpec(cfg, s, old(flagChecks), path, name)
      ensures flagChecks == r.checks
    {
      ghost var t := flagChecks;
      var i, halted, matches, last, found, byStop, h := ReadLines(s, path, name);
      LoopEnd(cfg, s, t, path, name, i, halted, byStop, h, matches, last, found, flagChecks);
      var raised := !halted && s.fails;
      if !raised && cfg.opts.useLast && last.Some? {
        matches := [last.value];
      }
      r := TextScan(matches, found, raised, flagChecks);
    }

    /** Writing rows to the CSV, each also added to the preview while it is under the cap
        (or always under "show all"); `base` stands for the rows written before. */
    method WriteRows(rows: seq<Row>, preview: seq<Row>, ghost base: seq<Row>) returns (p: seq<Row>)
      requires preview == Cap(base, cfg.opts.showAll)
      modifies this`csv
      ensures csv == old(csv) + rows
      ensures p == Cap(base + rows, cfg.opts.showAll)
    {
      p := preview;
      var k := 0;
      while k < |rows|
        invariant k <= |rows|
        invariant csv == old(csv) + rows[..k]
        invariant p == Cap(base + rows[..k], cfg.opts.showAll)
      {
        var row := rows[k];
        csv := csv + [row];
        CapStep(base + rows[..k], row, cfg.opts.showAll);
        if cfg.opts.showAll || |p| < PreviewCap {
          p := p + [row];
        }
        assert rows[..k + 1] == rows[..k] + [row];
        k := k + 1;
      }
      assert rows[..k] == rows;
    }

    /** One plain file: its lines are read, the rows it leaves are written and its matches
        returned. */
    method ProcessPlain(e: Entry, preview: seq<Row>, ghost base: seq<Row>) returns (p: seq<Row>, count: nat)
      requires preview == Cap(base, cfg.opts.showAll)
      modifies this`csv, this`flagChecks
      ensures var o := PlainOutcome(cfg, e, old(flagChecks));
        csv == old(csv) + o.rows && p == Cap(base + o.rows, cfg.opts.showAll)
        && count == o.count && flagChecks == o.checks
    {
      var filename := Basename(e.path);
      var relPath := e.relPath;
      var x := ScanText(e.content, relPath, filename);
      ghost var o := PlainOf(relPath, filename, e.content.error, x, cfg.opts.includeNoMatch);
      var matchesInFile := x.kept;
      if x.raised {
        matchesInFile := matchesInFile + [Row(relPath, filename, Error, "Could not read file: " + e.content.error)];
      }
      p := preview;
      count := 0;
      if x.found || (cfg.opts.includeNoMatch && matchesInFile == []) {
        if matchesInFile == [] && cfg.opts.includeNoMatch {
          matchesInFile := matchesInFile + [Row(relPath, filename, Dash, NoMatchText)];
        }
        assert o.rows == matchesInFile;
        p := WriteRows(matchesInFile, preview, base);
        count := if x.found then |matchesInFile| else 0;
      } else {
        assert o.rows == [];
        assert base + [] == base;
      }
    }

    /** One archive member: its lines are read, the rows it leaves are written and its
        numbered rows counted. */
    method ProcessMember(apath: string, m: Member, preview: seq<Row>, ghost base: seq<Row>,
                         ghost step: (Member, nat) -> Outcome)
      returns (p: seq<Row>, count: nat)
      requires MemberStepIs(cfg, apath, step)
      requires preview == Cap(base, cfg.opts.showAll)
      modifies this`csv, this`flagChecks
      ensures var o := step(m, old(flagChecks));
        csv == old(csv) + o.rows && p == Cap(base + o.rows, cfg.opts.showAll)
        && count == o.count && flagChecks == o.checks
    {
      assert step(m, flagChecks) == MemberOutcome(cfg, apath, m, flagChecks);
      var inner := m.name;
      var path := apath + "::" + inner;
      var name := Basename(inner);
      var x := ScanText(m.content, path, name);
      var matchesInMember := x.kept;
      if x.raised {
        matchesInMember := [Row(path, name, Error, "Could not read member: " + m.content.error)];
      }
      p := preview;
      count := 0;
      if matchesInMember != [] || cfg.opts.includeNoMatch {
        if matchesInMember == [] && cfg.opts.includeNoMatch {
          matchesInMember := [Row(path, name, Dash, NoMatchText)];
        }
        p := WriteRows(matchesInMember, preview, base);
        count := NumCount(matchesInMember);
      } else {
        assert base + [] == base;
      }
    }

    /** One archive: a `.zip` or `.7z` whose readable members are scanned in archive order;
        returns the archive's own preview (capped like the main one) and its matches. */
    method ProcessArchive(e: Entry) returns (archPreview: seq<Row>, count: nat)
      modifies this`csv, this`flagChecks
      ensures var o := ArchiveOutcome(cfg, e, old(flagChecks));
        csv == old(csv) + o.rows && archPreview == Cap(o.rows, cfg.opts.showAll)
        && count == o.count && flagChecks == o.checks
    {
      archPreview := [];
      count := 0;
      var lower := Lower(e.path);
      var isZip := EndsWith(lower, ".zip");
      if !isZip && !EndsWith(lower, ".7z") {
        return;
      }
      if !isZip && !cfg.sevenZip {
        archPreview := WriteRows([Row(e.path, Basename(e.path), Error, InstallSevenZipText)], archPreview, []);
        return;
      }
      match e.archive
      case Unreadable(err) =>
        archPreview := WriteRows([Row(e.path, Basename(e.path), Error, "Could not open archive: " + err)], archPreview, []);
      case Readable(ms) =>
        MemberStepAgrees(cfg, e.path, isZip);
        archPreview, count := ScanMembers(e.path, ms, isZip, MemberStep(cfg, e.path), MemberFilter(cfg, isZip));
    }

    /** The members of a readable archive, in archive order; directories and names without
        one of the extensions are skipped. */
    method ScanMembers(apath: string, ms: seq<Member>, isZip: bool,
                       ghost step: (Member, nat) -> Outcome, ghost keep: Member -> bool)
      returns (archPreview: seq<Row>, count: nat)
      requires MemberStepIs(cfg, apath, step) && KeepIs(cfg, isZip, keep)
      modifies this`csv, this`flagChecks
      ensures var o := MembersTo(step, keep, ms, |ms|, old(flagChecks));
        csv == old(csv) + o.rows && archPreview == Cap(o.rows, cfg.opts.showAll)
        && count == o.count && flagChecks == o.checks
    {
      ghost var t := flagChecks;
      ghost var csv0 := csv;
      ghost var rows: seq<Row> := [];
      archPreview := [];
      count := 0;
      var k := 0;
      while k < |ms|
        invariant MembersInv(step, keep, cfg.opts.showAll, ms, k, t, rows, count, flagChecks, csv0, csv, archPreview)
      {
        var m := ms[k];
        if MemberEligible(m, isZip, cfg.exts) {
          ghost var (u, csvBefore) := (flagChecks, csv);
          ghost var o := step(m, u);
          var c;
          archPreview, c := ProcessMember(apath, m, archPreview, rows, step);
          MembersInvRead(step, keep, cfg.opts.showAll, ms, k, t, rows, count, u, csv0, csvBefore, o, csv, archPreview);
          rows := rows + o.rows;
          count := count + c;
        } else {
          MembersInvSkip(step, keep, cfg.opts.showAll, ms, k, t, rows, count, flagChecks, csv0, csv, archPreview);
        }
        k := k + 1;
      }
    }

    /** One entry of the file list: archives go to the archive scanner when archives are
        searched, with the archive's own preview merged into the room left; everything else
        is read as a plain file. The outcome is stated through `step`, which agrees with
        EntryOutcome. */
    method ProcessEntry(e: Entry, preview: seq<Row>, ghost written: seq<Row>, ghost step: (Entry, nat) -> Outcome)
      returns (p: seq<Row>, count: nat)
      requires Agrees(cfg, step)
      requires preview == Cap(written, cfg.opts.showAll)
      modifies this`csv, this`flagChecks
      ensures var o := step(e, old(flagChecks));
        csv == old(csv) + o.rows && p == Cap(written + o.rows, cfg.opts.showAll)
        && count == o.count && flagChecks == o.checks
    {
      assert step(e, flagChecks) == EntryOutcome(cfg, e, flagChecks);
      if IsArchiveName(e.path) && cfg.archivesOn {
        ghost var o := ArchiveOutcome(cfg, e, flagChecks);
        var archPreview, archMatches := ProcessArchive(e);
        MergeIsCap(written, o.rows, cfg.opts.showAll);
        p := preview;
        if cfg.opts.showAll {
          p := p + archPreview;
        } else {
          var space := if PreviewCap - |p| > 0 then PreviewCap - |p| else 0;
          if space > 0 {
            p := p + Take(archPreview, space);
          }
        }
        count := archMatches;
      } else {
        p, count := ProcessPlain(e, preview, written);
      }
    }

    /** The file loop: the stop flag is read at the top of every entry; archives go to the
        archive scanner when archives are searched, everything else is read as a plain file;
        progress is posted every tenth entry and at the last. The search step is passed as
        `step`, which agrees with EntryOutcome everywhere. */
    method ProcessFiles(list: seq<Entry>, ghost step: (Entry, nat) -> Outcome) returns (preview: seq<Row>, matchCount: nat)
      requires Agrees(cfg, step)
      modifies this`csv, this`flagChecks, this`progress
      ensures var r := RunTo(step, cfg.stop, list, |list|, old(flagChecks));
        csv == old(csv) + r.rows && preview == Cap(r.rows, cfg.opts.showAll) && matchCount == r.count
        && flagChecks == r.checks && progress == old(progress) + Posted(r.done, |list|)
    {
      ghost var t := flagChecks;
      ghost var csv0 := csv;
      ghost var prog0 := progress;
      ghost var written: seq<Row> := [];
      preview := [];
      matchCount := 0;
      var totalFiles := |list|;
      var i := 0;
      while i < totalFiles
        invariant FilesInv(step, cfg.stop, cfg.opts.showAll, list, i, t, written, matchCount, flagChecks,
                           csv0, csv, preview, prog0, progress)
      {
        if IsSet(cfg.stop, flagChecks) {
          FilesStop(step, cfg.stop, cfg.opts.showAll, list, i, t, written, matchCount, flagChecks,
                    csv0, csv, preview, prog0, progress);
          flagChecks := flagChecks + 1;
          break;
        }
        preview, matchCount, written := NextEntry(list, i, step, t, written, matchCount, csv0, preview, prog0);
        i := i + 1;
      }
    }

    /** One pass of the entry loop once the stop flag has been read clear: the flag read
        is counted, the entry processed, and the progress posted every tenth entry and at
        the last. */
    method NextEntry(list: seq<Entry>, i: nat, ghost step: (Entry, nat) -> Outcome, ghost t: nat,
                     ghost written: seq<Row>, matchCount: nat, ghost csv0: seq<Row>, preview: seq<Row>,
                     ghost prog0: seq<nat>)
      returns (preview': seq<Row>, matchCount': nat, ghost written': seq<Row>)
      requires Agrees(cfg, step)
      requires i < |list| && !IsSet(cfg.stop, flagChecks)
      requires FilesInv(step, cfg.stop, cfg.opts.showAll, list, i, t, written, matchCount, flagChecks,
                        csv0, csv, preview, prog0, progress)
      modifies this`csv, this`flagChecks, this`progress
      ensures FilesInv(step, cfg.stop, cfg.opts.showAll, list, i + 1, t, written', matchCount', flagChecks,
                       csv0, csv, preview', prog0, progress)
    {
      ghost var (checks, csvBefore, progressBefore) := (flagChecks, csv, progress);
      flagChecks := flagChecks + 1;
      ghost var u := flagChecks;
      ghost var o := step(list[i], u);
      var c;
      preview', c := ProcessEntry(list[i], preview, written, step);
      var n := i + 1;
      if n % 10 == 0 || n == |list| {
        progress := progress + [n];
      }
      FilesNext(step, cfg.stop, cfg.opts.showAll, list, i, t, written, matchCount, checks,
                csv0, csvBefore, preview, prog0, progressBefore, u, o, csv, preview', progress);
      matchCount' := matchCount + c;
      written' := written + o.rows;
    }

    /** One search, from the click on "Search" on: the stop flag is cleared and the
        progress bar reset; the walk is sorted into the file list; with no candidate file
        the status says so and no CSV is written; otherwise the entries are processed and
        the flag is read once more to choose between "cancelled" and "complete". */
    method SearchFiles(walk: seq<Entry>) returns (preview: seq<Row>, total: nat, status: Status)
      requires Walked(walk)
      modifies this`csv, this`flagChecks, this`progress
      ensures var list := FileList(walk, cfg.exts, cfg.archivesOn);
              var r := Search(cfg, list, 0);
        status == SearchStatus(cfg, walk)
        && (list == [] ==> csv == old(csv) && preview == [] && total == 0 && progress == [] && flagChecks == 0)
        && (list != [] ==> csv == r.rows && preview == Cap(r.rows, cfg.opts.showAll) && total == r.count
                           && progress == Posted(r.done, |list|) && flagChecks == r.checks + 1)
    {
      flagChecks := 0;
      progress := [];
      var list := Classify(walk, cfg.exts, cfg.archivesOn);
      if |list| == 0 {
        return [], 0, NoFileTypes;
      }
      csv := [];
      EntryStepAgrees(cfg);
      preview, total := ProcessFiles(list, EntryStep(cfg));
      if IsSet(cfg.stop, flagChecks) {
        status := Cancelled(Shown(progress));
      } else {
        status := Complete(total, |list|);
      }
      flagChecks := flagChecks + 1;
    }
  }
}
