/** FolderSearchV3.py: one keyword, case rule, "match once" and "last match only", a
    preview capped at 1000 rows, progress on every tenth file and on the last. */
module SearchV3 {
  import opened PyText
  import opened Seqs
  import opened Matching
  import opened FoundRows
  import opened SearchForm

  /** `search_files`: the checks on the stripped keyword, the walk filtered by lower-cased
      name, then the file loop. Export is enabled iff the count is positive, that is iff
      some hit row was written. */
  method SearchFolder(isDir: bool, entry: string, matchOnce: bool, useLast: bool, cs: bool,
                      walk: seq<File>, stop: Stop) returns (r: Report)
    ensures CheckLimited(isDir, Strip(entry)) != Accepted ==> r == Rejected(CheckLimited(isDir, Strip(entry)))
    ensures CheckLimited(isDir, Strip(entry)) == Accepted ==>
      var files := FileList(walk, CommonExtensions, true);
      var o := Search(files, KeywordTest(Strip(entry), cs), Policy(matchOnce, useLast), stop);
      r.Finished? && r.rows == o.rows && r.count == o.count
      && r.preview == PreviewOf(o.rows, true)
      && r.progress == PostedTo(TenthOrLast, Processed(files, stop), |files|)
      && (r.completed <==> !IsSet(stop, Processed(files, stop)))
    ensures r.Finished? ==> r.preview <= r.rows && |r.preview| <= PreviewCap
    ensures r.Finished? ==> (r.exportEnabled <==> exists k :: 0 <= k < |r.rows| && IsHitRow(r.rows[k]))
  {
    var keyword := Strip(entry);
    var v := CheckLimited(isDir, keyword);
    if v != Accepted {
      return Rejected(v);
    }
    var files := CollectFiles(walk, CommonExtensions, true);
    var hit := KeywordTest(keyword, cs);
    var p := Policy(matchOnce, useLast);
    var rows, preview, count, progress, completed := RunSearch(hit, p, true, TenthOrLast, stop, files);
    SearchCount(files, hit, p, stop);
    CountPositive(rows, IsHitRow);
    PreviewShape(rows, true);
    r := Finished(rows, preview, count, progress, completed, count > 0);
  }
}
