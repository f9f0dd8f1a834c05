/** FolderSearchV5_Refactored.py: every file under the folder, one keyword under the case
    rule, every hit row with the full path, an ERROR row for a file that cannot be read. */
module SearchRefactored {
  import opened Opt
  import opened PyText
  import opened Seqs
  import opened Matching
  import FR = FoundRows
  import V5 = SearchV5
  import V6 = SearchV6Zip

  /** `search_in_file` for the file at `path`: a row for each line passing the test, with
      the path, the 1-based number and the stripped line, then an ERROR row if reading
      raised. */
  function FileMatches(path: string, s: Stream, hit: string -> bool): seq<V5.Row> {
    V5.HitRows(path, s.lines, FR.HitsOf(s.lines, hit, |s.lines|))
      + (if s.fails then [V5.ErrorRow(path, s.error)] else [])
  }

  /** Every hit row is the stripped text of a line passing the test, under its 1-based
      number. */
  lemma HitRowsSound(path: string, lines: seq<string>, hit: string -> bool)
    ensures var m := V5.HitRows(path, lines, FR.HitsOf(lines, hit, |lines|));
      forall k :: 0 <= k < |m| ==>
        m[k].line.Num? && 1 <= m[k].line.n <= |lines| && hit(lines[m[k].line.n - 1])
        && m[k] == V5.HitRow(path, lines, m[k].line.n - 1)
  {
    var h := FR.HitsOf(lines, hit, |lines|);
    V5.HitRowsAt(path, lines, h);
  }

  /** Every line passing the test has its row. */
  lemma HitRowsComplete(path: string, lines: seq<string>, hit: string -> bool)
    ensures var m := V5.HitRows(path, lines, FR.HitsOf(lines, hit, |lines|));
      forall i :: 0 <= i < |lines| && hit(lines[i]) ==> V5.HitRow(path, lines, i) in m
  {
    var h := FR.HitsOf(lines, hit, |lines|);
    var m := V5.HitRows(path, lines, h);
    FR.HitsOfShape(lines, hit, |lines|);
    V5.HitRowsAt(path, lines, h);
    forall i | 0 <= i < |lines| && hit(lines[i])
      ensures V5.HitRow(path, lines, i) in m
    {
      var k :| 0 <= k < |h| && h[k] == i;
      assert m[k] == V5.HitRow(path, lines, i);
    }
  }

  /** The hit rows come in increasing line order. */
  lemma HitRowsIncrease(path: string, lines: seq<string>, hit: string -> bool)
    ensures var m := V5.HitRows(path, lines, FR.HitsOf(lines, hit, |lines|));
      forall j, k :: 0 <= j < k < |m| ==> m[j].line.Num? && m[k].line.Num? && m[j].line.n < m[k].line.n
  {
    var h := FR.HitsOf(lines, hit, |lines|);
    FR.HitsOfShape(lines, hit, |lines|);
    V5.HitRowsAt(path, lines, h);
  }

  /** After the hit rows, the ERROR row exactly when reading raised. */
  lemma FileMatchesEnd(path: string, s: Stream, hit: string -> bool)
    ensures var hits := V5.HitRows(path, s.lines, FR.HitsOf(s.lines, hit, |s.lines|));
      var m := FileMatches(path, s, hit);
      hits <= m && (s.fails ==> m == hits + [V5.ErrorRow(path, s.error)]) && (!s.fails ==> m == hits)
  {
  }

  /** `search_in_file`: the line loop appends the row of each hit; the error, if any,
      comes after the last line read. */
  method SearchInFile(path: string, s: Stream, hit: string -> bool) returns (matches: seq<V5.Row>)
    ensures matches == FileMatches(path, s, hit)
  {
    var lines := s.lines;
    matches := [];
    var i := 0;
    ghost var h: seq<nat> := [];
    while i < |lines|
      invariant i <= |lines| && h == FR.HitsOf(lines, hit, i) && matches == V5.HitRows(path, lines, h)
    {
      FR.HitsOfNext(lines, hit, i);
      if hit(lines[i]) {
        V5.HitRowsSnoc(path, lines, h, i);
        matches := matches + [V5.HitRow(path, lines, i)];
        h := h + [i];
      }
      i := i + 1;
    }
    if s.fails {
      matches := matches + [V5.ErrorRow(path, s.error)];
    }
  }

  /** The rows shown for the whole walk, file by file, with no extension filter. */
  function Listing(walk: seq<FR.File>, hit: string -> bool): seq<V5.Row>
    decreases |walk|
  {
    if |walk| == 0 then []
    else Listing(walk[..|walk| - 1], hit) + FileMatches(walk[|walk| - 1].path, walk[|walk| - 1].content, hit)
  }

  /** Number of files of the walk that cannot be read. */
  function Unreadable(walk: seq<FR.File>): nat
    decreases |walk|
  {
    if |walk| == 0 then 0 else Unreadable(walk[..|walk| - 1]) + (if walk[|walk| - 1].content.fails then 1 else 0)
  }

  /** One ERROR row per file that cannot be read, and no other. */
  lemma {:induction false} ListingErrors(walk: seq<FR.File>, hit: string -> bool)
    ensures Count(Listing(walk, hit), V5.IsErrorRow) == Unreadable(walk)
    decreases |walk|
  {
    if |walk| > 0 {
      var f := walk[|walk| - 1];
      var h := FR.HitsOf(f.content.lines, hit, |f.content.lines|);
      var err := if f.content.fails then [V5.ErrorRow(f.path, f.content.error)] else [];
      ListingErrors(walk[..|walk| - 1], hit);
      V5.HitRowsCounts(f.path, f.content.lines, h);
      CountAppend(V5.HitRows(f.path, f.content.lines, h), err, V5.IsErrorRow);
      CountAppend(Listing(walk[..|walk| - 1], hit), FileMatches(f.path, f.content, hit), V5.IsErrorRow);
      if err != [] {
        assert err[..0] == [];
      }
    }
  }

  /** Under the case-insensitive search the keyword's own case does not matter. */
  lemma KeywordCaseIgnored(keyword: string, line: string)
    ensures FR.KeywordTest(keyword, false)(line) == FR.KeywordTest(Lower(keyword), false)(line)
  {
    assert Lower(Lower(keyword)) == Lower(keyword);
  }

  /** `search`: both entries must be non-empty (the folder is not checked to be a
      directory); then every file of the walk is searched with the keyword, lower-cased
      unless the search is case-sensitive. */
  method Search(folder: string, keyword: string, cs: bool, walk: seq<FR.File>) returns (shown: Option<seq<V5.Row>>)
    ensures folder == [] || keyword == [] <==> shown == None
    ensures shown.Some? ==> shown.value == Listing(walk, FR.KeywordTest(keyword, cs))
  {
    if folder == "" || keyword == "" {
      return None;
    }
    var hit := FR.KeywordTest(keyword, cs);
    var rows: seq<V5.Row> := [];
    var i := 0;
    while i < |walk|
      invariant i <= |walk| && rows == Listing(walk[..i], hit)
    {
      var m := SearchInFile(walk[i].path, walk[i].content, hit);
      assert walk[..i + 1][..i] == walk[..i];
      rows := rows + m;
      i := i + 1;
    }
    assert walk[..i] == walk;
    return Some(rows);
  }
}
