/** FolderSerach10K.py: one case-sensitive keyword, every hit of every file kept in the
    results list, which is cleared when a search starts and shown whole. */
module Search10K {
  import opened PyText
  import opened Seqs
  import opened Matching
  import opened FoundRows
  import opened SearchForm

  /** The suffixes this tool searches, matched against the file name as it is: `.XML` is
      upper-case, so `a.xml` is not searched, and `a.TXT` is not either. */
  const Extensions: seq<string> := [".txt", ".log", ".csv", ".XML", ".json"]

  /** `search_files`, after `start_search_thread` has cleared the results: a refusal
      leaves them empty; otherwise they hold every hit row of the files processed before
      the stop request, and the status counts them all, error rows included. */
  method SearchFolder(isDir: bool, entry: string, walk: seq<File>, stop: Stop) returns (r: Report)
    ensures CheckPlain(isDir, Strip(entry)) != Accepted ==> r == Rejected(MissingInput)
    ensures CheckPlain(isDir, Strip(entry)) == Accepted ==>
      var files := FileList(walk, Extensions, false);
      var o := Search(files, l => Contains(l, Strip(entry)), Policy(false, false), stop);
      r.Finished? && r.rows == o.rows && r.preview == o.rows && r.count == |o.rows|
      && r.progress == PostedTo(EveryFile, Processed(files, stop), |files|)
      && (r.completed <==> !IsSet(stop, Processed(files, stop)))
    ensures r.Finished? ==> (r.exportEnabled <==> r.rows != [])
  {
    var keyword := Strip(entry);
    if CheckPlain(isDir, keyword) != Accepted {
      return Rejected(MissingInput);
    }
    var files := CollectFiles(walk, Extensions, false);
    var rows, preview, count, progress, completed :=
      RunSearch(l => Contains(l, keyword), Policy(false, false), false, EveryFile, stop, files);
    PreviewShape(rows, false);
    r := Finished(rows, preview, |rows|, progress, completed, rows != []);
  }

  /** The suffix test is case-sensitive: lower-case `.xml` files and upper-case `.TXT`
      files are skipped, while `.XML` files are searched. */
  lemma SuffixCase(c: Stream)
    ensures !Wanted(File("d/a.xml", "a.xml", c), Extensions, false)
    ensures !Wanted(File("d/a.TXT", "a.TXT", c), Extensions, false)
    ensures Wanted(File("d/a.XML", "a.XML", c), Extensions, false)
  {
    LowerXmlSkipped(c);
    UpperTxtSkipped(c);
    var u := "a.XML";
    assert EndsWith(u, Extensions[3]);
  }

  lemma LowerXmlSkipped(c: Stream)
    ensures !Wanted(File("d/a.xml", "a.xml", c), Extensions, false)
  {
    var x := "a.xml";
    assert x[|x| - 4..] == ".xml";
    assert x[|x| - 5..] == "a.xml";
  }

  lemma UpperTxtSkipped(c: Stream)
    ensures !Wanted(File("d/a.TXT", "a.TXT", c), Extensions, false)
  {
    var t := "a.TXT";
    assert t[|t| - 4..] == ".TXT";
    assert t[|t| - 5..] == "a.TXT";
  }
}
