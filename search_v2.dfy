/** FolderSearchV2.py: one case-sensitive keyword, "match once", a preview capped at 1000
    rows, progress on every tenth file only. */
module SearchV2 {
  import opened PyText
  import opened Seqs
  import opened Matching
  import opened FoundRows
  import opened SearchForm

  /** `search_files`: the single check, the walk filtered by lower-cased name, then the
      file loop writing every hit (or only the first under "match once"). */
  method SearchFolder(isDir: bool, entry: string, matchOnce: bool, walk: seq<File>, stop: Stop)
    returns (r: Report)
    ensures CheckPlain(isDir, Strip(entry)) != Accepted ==> r == Rejected(MissingInput)
    ensures CheckPlain(isDir, Strip(entry)) == Accepted ==>
      var files := FileList(walk, CommonExtensions, true);
      var o := Search(files, l => Contains(l, Strip(entry)), Policy(matchOnce, false), stop);
      r.Finished? && r.rows == o.rows && r.count == o.count
      && r.preview == PreviewOf(o.rows, true)
      && r.progress == PostedTo(EveryTenth, Processed(files, stop), |files|)
      && (r.completed <==> !IsSet(stop, Processed(files, stop)))
    ensures r.Finished? ==> r.preview <= r.rows && |r.preview| <= PreviewCap
    ensures r.Finished? ==> (r.exportEnabled <==> exists k :: 0 <= k < |r.rows| && IsHitRow(r.rows[k]))
  {
    var keyword := Strip(entry);
    if CheckPlain(isDir, keyword) != Accepted {
      return Rejected(MissingInput);
    }
    var files := CollectFiles(walk, CommonExtensions, true);
    var hit := l => Contains(l, keyword);
    var p := Policy(matchOnce, false);
    var rows, preview, count, progress, completed := RunSearch(hit, p, true, EveryTenth, stop, files);
    SearchCount(files, hit, p, stop);
    CountPositive(rows, IsHitRow);
    PreviewShape(rows, true);
    r := Finished(rows, preview, count, progress, completed, count > 0);
  }

  /** The case-sensitive test is the single-keyword test with case sensitivity on. */
  lemma PlainIsCaseSensitive(keyword: string, line: string)
    ensures Contains(line, keyword) == KeywordTest(keyword, true)(line)
  {
  }
}
