/** FolderSerach10KMultiSerach.py: a comma-separated keyword list matched without regard
    to case, every hit kept in the results list. */
module Search10KMulti {
  import opened PyText
  import opened Seqs
  import opened Matching
  import opened FoundRows
  import opened SearchForm

  const Extensions: seq<string> := [".txt", ".log", ".csv", ".json", ".prn", ".jrn"]

  /** The pieces that are not blank once stripped, stripped and lower-cased, in order. */
  function NonBlank(parts: seq<string>): (ks: seq<string>)
    ensures |ks| <= |parts|
    ensures forall i :: 0 <= i < |ks| ==> ks[i] != []
    decreases |parts|
  {
    if |parts| == 0 then []
    else
      var k := Strip(parts[0]);
      (if k != "" then [Lower(k)] else []) + NonBlank(parts[1..])
  }

  /** The keyword list of an entry. */
  function Keywords(raw: string): seq<string> {
    NonBlank(Split(Strip(raw), ','))
  }

  /** A keyword of the list is exactly a non-blank piece, stripped and lower-cased. */
  lemma {:induction false} NonBlankMembers(parts: seq<string>, k: string)
    ensures k in NonBlank(parts) <==> exists i :: 0 <= i < |parts| && Strip(parts[i]) != [] && k == Lower(Strip(parts[i]))
    decreases |parts|
  {
    if |parts| > 0 {
      NonBlankMembers(parts[1..], k);
      assert forall i :: 1 <= i < |parts| ==> parts[i] == parts[1..][i - 1];
      if exists i :: 0 <= i < |parts| && Strip(parts[i]) != [] && k == Lower(Strip(parts[i])) {
        var i :| 0 <= i < |parts| && Strip(parts[i]) != [] && k == Lower(Strip(parts[i]));
        if i > 0 {
          assert parts[1..][i - 1] == parts[i];
        }
      }
    }
  }

  /** The list is empty exactly when every piece is blank. */
  lemma {:induction false} NonBlankEmpty(parts: seq<string>)
    ensures NonBlank(parts) == [] <==> forall i :: 0 <= i < |parts| ==> Strip(parts[i]) == []
    decreases |parts|
  {
    if |parts| > 0 {
      NonBlankEmpty(parts[1..]);
      assert forall i :: 1 <= i < |parts| ==> parts[i] == parts[1..][i - 1];
    }
  }

  /** The line, lower-cased, contains one of the keywords. */
  predicate MentionsAny(keywords: seq<string>, line: string) {
    exists i :: 0 <= i < |keywords| && Contains(Lower(line), keywords[i])
  }

  /** A line passes exactly when some non-blank piece of the entry, taken as a single
      keyword, passes the case-insensitive single-keyword test. */
  lemma MentionsAnyIsSomeKeyword(raw: string, line: string)
    ensures MentionsAny(Keywords(raw), line) <==>
      exists p :: p in Split(Strip(raw), ',') && Strip(p) != [] && KeywordTest(Strip(p), false)(line)
  {
    if MentionsAny(Keywords(raw), line) {
      MentionsSomeKeyword(raw, line);
    }
    SomeKeywordMentions(raw, line);
  }

  lemma MentionsSomeKeyword(raw: string, line: string)
    requires MentionsAny(Keywords(raw), line)
    ensures exists p :: p in Split(Strip(raw), ',') && Strip(p) != [] && KeywordTest(Strip(p), false)(line)
  {
    var parts := Split(Strip(raw), ',');
    var ks := Keywords(raw);
    var i :| 0 <= i < |ks| && Contains(Lower(line), ks[i]);
    NonBlankMembers(parts, ks[i]);
    var j :| 0 <= j < |parts| && Strip(parts[j]) != [] && ks[i] == Lower(Strip(parts[j]));
    assert KeywordTest(Strip(parts[j]), false)(line);
  }

  lemma SomeKeywordMentions(raw: string, line: string)
    ensures (exists p :: p in Split(Strip(raw), ',') && Strip(p) != [] && KeywordTest(Strip(p), false)(line))
      ==> MentionsAny(Keywords(raw), line)
  {
    var parts := Split(Strip(raw), ',');
    var ks := Keywords(raw);
    if exists p :: p in parts && Strip(p) != [] && KeywordTest(Strip(p), false)(line) {
      var p :| p in parts && Strip(p) != [] && KeywordTest(Strip(p), false)(line);
      var j :| 0 <= j < |parts| && parts[j] == p;
      NonBlankMembers(parts, Lower(Strip(p)));
      var i :| 0 <= i < |ks| && ks[i] == Lower(Strip(p));
      assert Contains(Lower(line), ks[i]);
    }
  }

  /** `search_files`, after the results were cleared: the checks on the stripped entry,
      then on its keyword list, the walk filtered by lower-cased name, then the loop. */
  method SearchFolder(isDir: bool, entry: string, walk: seq<File>, stop: Stop) returns (r: Report)
    ensures CheckPlain(isDir, Strip(entry)) != Accepted ==> r == Rejected(MissingInput)
    ensures CheckPlain(isDir, Strip(entry)) == Accepted && Keywords(entry) == [] ==> r == Rejected(NoValidKeywords)
    ensures CheckPlain(isDir, Strip(entry)) == Accepted && Keywords(entry) != [] ==>
      var files := FileList(walk, Extensions, true);
      var o := Search(files, l => MentionsAny(Keywords(entry), l), Policy(false, false), stop);
      r.Finished? && r.rows == o.rows && r.preview == o.rows && r.count == |o.rows|
      && r.progress == PostedTo(EveryFile, Processed(files, stop), |files|)
      && (r.completed <==> !IsSet(stop, Processed(files, stop)))
    ensures r.Finished? ==> (r.exportEnabled <==> r.rows != [])
  {
    var raw := Strip(entry);
    if CheckPlain(isDir, raw) != Accepted {
      return Rejected(MissingInput);
    }
    var keywords := NonBlank(Split(raw, ','));
    if keywords == [] {
      return Rejected(NoValidKeywords);
    }
    var files := CollectFiles(walk, Extensions, true);
    var rows, preview, count, progress, completed :=
      RunSearch(l => MentionsAny(keywords, l), Policy(false, false), false, EveryFile, stop, files);
    PreviewShape(rows, false);
    r := Finished(rows, preview, |rows|, progress, completed, rows != []);
  }
}
