/** FolderSerach.py: `.txt` and `.log` files, one case-sensitive keyword, every hit; a
    file that cannot be read is reported on the console and adds no row. */
module FolderSearchBasic {
  import opened PyText
  import opened Seqs
  import opened Matching
  import FR = FoundRows

  const Extensions: seq<string> := [".txt", ".log"]

  const Header: seq<string> := ["File", "Line Number", "Matched Line"]

  function KeywordIn(keyword: string): string -> bool {
    l => Contains(l, keyword)
  }

  /** The rows of one file: its hits among the lines read before any error. */
  function FileResults(f: FR.File, keyword: string): seq<FR.Row> {
    FR.HitRows(f.name, f.content.lines, FR.HitsOf(f.content.lines, KeywordIn(keyword), |f.content.lines|))
  }

  /** `search_text_in_files` over the walk: the selected files' rows in walk order. */
  function Results(walk: seq<FR.File>, keyword: string): seq<FR.Row>
    decreases |walk|
  {
    if |walk| == 0 then []
    else
      var f := walk[|walk| - 1];
      Results(walk[..|walk| - 1], keyword) + (if FR.Wanted(f, Extensions, true) then FileResults(f, keyword) else [])
  }

  /** The rows are what the other tools write for an all-hits search, without the error
      row. */
  lemma FileResultsDropError(f: FR.File, keyword: string)
    ensures FR.FileRows(f, KeywordIn(keyword), Policy(false, false))
         == FileResults(f, keyword) + (if f.content.fails then [FR.ErrorRow(f.name, f.content.error)] else [])
  {
  }

  /** The rows of a file are exactly the rows of its lines that contain the keyword. */
  lemma FileResultsAreHits(f: FR.File, keyword: string)
    ensures var lines := f.content.lines; var r := FileResults(f, keyword);
      (forall k :: 0 <= k < |r| ==>
         1 <= r[k].line <= |lines| && KeywordIn(keyword)(lines[r[k].line - 1])
         && r[k] == FR.HitRow(f.name, lines, r[k].line - 1))
      && (forall i :: 0 <= i < |lines| ==>
            (KeywordIn(keyword)(lines[i]) <==> exists k :: 0 <= k < |r| && r[k] == FR.HitRow(f.name, lines, i)))
  {
    FileResultsSound(f, keyword);
    FileResultsComplete(f, keyword);
  }

  /** Each row is a line containing the keyword, under its 1-based number. */
  lemma FileResultsSound(f: FR.File, keyword: string)
    ensures var lines := f.content.lines; var r := FileResults(f, keyword);
      forall k :: 0 <= k < |r| ==>
        1 <= r[k].line <= |lines| && KeywordIn(keyword)(lines[r[k].line - 1])
        && r[k] == FR.HitRow(f.name, lines, r[k].line - 1)
  {
    var lines := f.content.lines;
    var h := FR.HitsOf(lines, KeywordIn(keyword), |lines|);
    var r := FileResults(f, keyword);
    FR.HitRowsAt(f.name, lines, h);
    forall k | 0 <= k < |r|
      ensures 1 <= r[k].line <= |lines| && KeywordIn(keyword)(lines[r[k].line - 1])
        && r[k] == FR.HitRow(f.name, lines, r[k].line - 1)
    {
      assert r[k] == FR.HitRow(f.name, lines, h[k]);
    }
  }

  /** Every line containing the keyword has its row. */
  lemma FileResultsComplete(f: FR.File, keyword: string)
    ensures var lines := f.content.lines; var r := FileResults(f, keyword);
      forall i :: 0 <= i < |lines| ==>
        (KeywordIn(keyword)(lines[i]) <==> exists k :: 0 <= k < |r| && r[k] == FR.HitRow(f.name, lines, i))
  {
    var lines := f.content.lines;
    var h := FR.HitsOf(lines, KeywordIn(keyword), |lines|);
    FR.HitsOfShape(lines, KeywordIn(keyword), |lines|);
    FR.HitRowsAt(f.name, lines, h);
    FR.AllHitsAt(f.name, lines, KeywordIn(keyword), h, FileResults(f, keyword));
  }

  /** The rows of a file come in increasing line order. */
  lemma FileResultsIncrease(f: FR.File, keyword: string)
    ensures var r := FileResults(f, keyword);
      forall j, k :: 0 <= j < k < |r| ==> r[j].line < r[k].line
  {
    var lines := f.content.lines;
    var h := FR.HitsOf(lines, KeywordIn(keyword), |lines|);
    FR.HitsOfShape(lines, KeywordIn(keyword), |lines|);
    FR.HitRowsAt(f.name, lines, h);
  }

  /** No row of a search is an error row, whatever files could not be read. */
  lemma {:induction false} ResultsAreHits(walk: seq<FR.File>, keyword: string)
    ensures forall k :: 0 <= k < |Results(walk, keyword)| ==> FR.IsHitRow(Results(walk, keyword)[k])
    decreases |walk|
  {
    if |walk| > 0 {
      var f := walk[|walk| - 1];
      var front := Results(walk[..|walk| - 1], keyword);
      var more := if FR.Wanted(f, Extensions, true) then FileResults(f, keyword) else [];
      ResultsAreHits(walk[..|walk| - 1], keyword);
      var r := Results(walk, keyword);
      assert r == front + more;
      var h := FR.HitsOf(f.content.lines, KeywordIn(keyword), |f.content.lines|);
      FR.HitRowsAt(f.name, f.content.lines, h);
      forall k | 0 <= k < |r|
        ensures FR.IsHitRow(r[k])
      {
        if k < |front| {
          assert r[k] == front[k];
        } else {
          assert r[k] == more[k - |front|] == FR.HitRow(f.name, f.content.lines, h[k - |front|]);
        }
      }
    }
  }

  /** One file of `search_text_in_files`: read its lines and append a row for each one
      containing the keyword. */
  method ReadFile(f: FR.File, keyword: string) returns (rows: seq<FR.Row>)
    ensures rows == FileResults(f, keyword)
  {
    var lines := f.content.lines;
    rows := [];
    var j := 0;
    ghost var h: seq<nat> := [];
    while j < |lines|
      invariant j <= |lines| && h == FR.HitsOf(lines, KeywordIn(keyword), j) && rows == FR.HitRows(f.name, lines, h)
    {
      FR.HitsOfNext(lines, KeywordIn(keyword), j);
      if Contains(lines[j], keyword) {
        FR.HitRowsSnoc(f.name, lines, h, j);
        rows := rows + [FR.HitRow(f.name, lines, j)];
        h := h + [j];
      }
      j := j + 1;
    }
  }

  /** `search_text_in_files`: every file of the walk with a selected name, in walk order. */
  method SearchTextInFiles(walk: seq<FR.File>, keyword: string) returns (results: seq<FR.Row>)
    ensures results == Results(walk, keyword)
  {
    results := [];
    var i := 0;
    while i < |walk|
      invariant i <= |walk| && results == Results(walk[..i], keyword)
    {
      assert walk[..i + 1][..i] == walk[..i];
      if FR.Wanted(walk[i], Extensions, true) {
        var rows := ReadFile(walk[i], keyword);
        results := results + rows;
      } else {
        assert results + [] == results;
      }
      i := i + 1;
    }
    assert walk[..i] == walk;
  }

  /** The cells of one CSV row: file name, line number, text. */
  function Cells(r: FR.Row): seq<string> {
    [r.name, NatToString(r.line), r.text]
  }

  /** `export_to_csv`: the header, then the rows in their order. */
  function CsvTable(results: seq<FR.Row>): (t: seq<seq<string>>)
    ensures |t| == |results| + 1 && t[0] == Header
    ensures forall k :: 0 <= k < |results| ==> t[k + 1] == Cells(results[k])
    decreases |results|
  {
    if |results| == 0 then [Header]
    else CsvTable(results[..|results| - 1]) + [Cells(results[|results| - 1])]
  }

  /** Every data row of the table reads back as the result it came from. */
  lemma CsvReadsBack(results: seq<FR.Row>, k: nat)
    requires k < |results|
    ensures var c := CsvTable(results)[k + 1];
      |c| == 3 && c[0] == results[k].name && c[2] == results[k].text
      && (forall i :: 0 <= i < |c[1]| ==> '0' <= c[1][i] <= '9')
      && DigitsValue(c[1]) == results[k].line
  {
    NatToStringRoundTrip(results[k].line);
  }

  /** The window: the rows of the last search and the export button. */
  class SearchWindow {
    var results: seq<FR.Row>
    var exportEnabled: bool

    constructor ()
      ensures results == [] && !exportEnabled
    {
      results := [];
      exportEnabled := false;
    }

    /** `run_search`: a folder that is not a directory or an empty keyword leaves the
        window as it was; otherwise the rows are replaced and export is enabled iff there
        are any. */
    method RunSearch(isDir: bool, keyword: string, walk: seq<FR.File>)
      modifies this
      ensures !isDir || keyword == [] ==> results == old(results) && exportEnabled == old(exportEnabled)
      ensures isDir && keyword != [] ==> results == Results(walk, keyword) && (exportEnabled <==> results != [])
    {
      if !isDir || keyword == "" {
        return;
      }
      results := SearchTextInFiles(walk, keyword);
      exportEnabled := results != [];
    }

    /** `save_csv`: nothing without results; otherwise the table written. */
    method Export() returns (table: seq<seq<string>>)
      ensures results == [] ==> table == []
      ensures results != [] ==> table == CsvTable(results)
    {
      if results == [] {
        return [];
      }
      table := CsvTable(results);
    }
  }
}
