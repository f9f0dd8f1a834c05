/** text_search_app.py: FolderSearchV3.py's search with an uncapped preview list, of which
    the window shows the first 1000 rows, and an encoding guess cached per file suffix. */
module TextSearch {
  import opened PyText
  import opened Seqs
  import opened PyPath
  import opened Matching
  import opened FoundRows
  import opened SearchForm

  // ---------------------------------------------------------------- encoding cache

  /** `Path.suffix` of a file name: from its last dot on, when that dot is neither the
      first nor the last character; otherwise empty. */
  function Suffix(name: string): (r: string)
    ensures r == [] || (2 <= |r| <= |name| && r[0] == '.' && r == name[|name| - |r|..])
    ensures r != [] ==> '.' !in r[1..]
  {
    var i := LastDot(name);
    if 0 < i < |name| - 1 then name[i..] else ""
  }

  /** What reading the sample and running the detector gives: a guess (possibly empty),
      no guess, or an exception. */
  datatype Probe = Guess(encoding: string) | NoGuess | ReadFails

  /** The detector's guess, or `utf-8` when it has none, its guess is empty, or the read
      raised. */
  function Detected(probe: Probe): (e: string)
    ensures e != []
    ensures probe.Guess? && probe.encoding != [] ==> e == probe.encoding
  {
    if probe.Guess? && probe.encoding != "" then probe.encoding else "utf-8"
  }

  /** The shared encoding cache, keyed by the lower-cased suffix. */
  class EncodingCache {
    var cache: map<string, string>

    /** No entry is empty. */
    ghost predicate Valid()
      reads this
    {
      forall k :: k in cache ==> cache[k] != []
    }

    constructor ()
      ensures cache == map[] && Valid()
    {
      cache := map[];
    }

    /** `detect_encoding`: a cached suffix answers without reading; otherwise the guess
        is stored under the suffix and returned. `probe` is what reading would give. */
    method Detect(name: string, probe: Probe) returns (enc: string)
      modifies this
      requires Valid()
      ensures Valid() && enc != []
      ensures Lower(Suffix(name)) in old(cache) ==> enc == old(cache)[Lower(Suffix(name))] && cache == old(cache)
      ensures Lower(Suffix(name)) !in old(cache) ==>
        enc == Detected(probe) && cache == old(cache)[Lower(Suffix(name)) := enc]
    {
      var ext := Lower(Suffix(name));
      if ext in cache {
        return cache[ext];
      }
      enc := Detected(probe);
      cache := cache[ext := enc];
    }
  }

  /** Files with the same lower-cased suffix share one guess: after the first detection
      the cache answers for every later file of that suffix, whatever its probe. */
  lemma SameSuffixSameGuess(cache: map<string, string>, a: string, b: string, pa: Probe)
    requires Lower(Suffix(a)) == Lower(Suffix(b))
    ensures var ext := Lower(Suffix(a));
      var after := if ext in cache then cache else cache[ext := Detected(pa)];
      ext in after && Lower(Suffix(b)) in after && after[Lower(Suffix(b))] == after[ext]
  {
  }

  // ---------------------------------------------------------------- search

  /** `search_files`: as FolderSearchV3.py, except that every row also goes to the preview
      list. */
  method SearchFolder(isDir: bool, entry: string, matchOnce: bool, useLast: bool, cs: bool,
                      walk: seq<File>, stop: Stop) returns (r: Report)
    ensures CheckLimited(isDir, Strip(entry)) != Accepted ==> r == Rejected(CheckLimited(isDir, Strip(entry)))
    ensures CheckLimited(isDir, Strip(entry)) == Accepted ==>
      var files := FileList(walk, CommonExtensions, true);
      var o := Search(files, KeywordTest(Strip(entry), cs), Policy(matchOnce, useLast), stop);
      r.Finished? && r.rows == o.rows && r.count == o.count
      && r.progress == PostedTo(TenthOrLast, Processed(files, stop), |files|)
      && (r.completed <==> !IsSet(stop, Processed(files, stop)))
    ensures r.Finished? ==> r.preview == r.rows && r.count <= |r.rows|
    ensures r.Finished? ==> (r.exportEnabled <==> exists k :: 0 <= k < |r.rows| && IsHitRow(r.rows[k]))
  {
    var keyword := Strip(entry);
    var v := CheckLimited(isDir, keyword);
    if v != Accepted {
      return Rejected(v);
    }
    var files := CollectFiles(walk, CommonExtensions, true);
    var hit := KeywordTest(keyword, cs);
    var p := Policy(matchOnce, useLast);
    var rows, preview, count, progress, completed := RunSearch(hit, p, false, TenthOrLast, stop, files);
    SearchCount(files, hit, p, stop);
    CountPositive(rows, IsHitRow);
    CountBound(rows, IsHitRow);
    r := Finished(rows, preview, count, progress, completed, count > 0);
  }

  // ---------------------------------------------------------------- preview display

  /** The rows the window shows: the first 1000 of the preview list. */
  function Displayed(preview: seq<Row>): (d: seq<Row>)
    ensures d <= preview && |d| == Min(PreviewCap, |preview|)
  {
    Take(preview, PreviewCap)
  }

  /** The "Showing first … of … results" note as written: shown when the match count
      exceeds the length of the preview list. */
  predicate NoteShown(count: nat, preview: seq<Row>) {
    count > |preview|
  }

  /** The note as evidently intended: shown when the match count exceeds what the window
      shows. */
  predicate NoteDue(count: nat, preview: seq<Row>) {
    count > |Displayed(preview)|
  }

  /** Since the preview list holds every row and the count only the hit rows, the note as
      written is never shown, even when the window cuts 1001 hit rows to 1000. */
  lemma NoteNeverShown(r: Report)
    requires r.Finished? && r.preview == r.rows && r.count <= |r.rows|
    ensures !NoteShown(r.count, r.preview)
    ensures r.count > PreviewCap ==> |Displayed(r.preview)| < r.count
  {
  }

  /** The intended note is shown exactly when some counted match is not on display. */
  lemma NoteDueWhenCut(r: Report)
    requires r.Finished? && r.preview == r.rows
    requires r.count == Count(r.rows, IsHitRow)
    ensures NoteDue(r.count, r.preview) ==> |r.rows| > PreviewCap
    ensures r.count > PreviewCap ==> NoteDue(r.count, r.preview)
  {
    CountBound(r.rows, IsHitRow);
  }
}
