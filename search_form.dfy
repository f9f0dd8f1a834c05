/** The input checks and the keyword history of the folder-search windows. */
module SearchForm {
  import opened Seqs
  import opened FoundRows

  /** The extensions FolderSearchV2.py, FolderSearchV3.py and text_search_app.py search,
      compared with the lower-cased file name. */
  const CommonExtensions: seq<string> := [".txt", ".log", ".csv", ".json", ".xml"]

  const HistoryCap: nat := 20
  const KeywordLimit: nat := 100

  /** The outcome of the input checks, each refusal naming the first check that failed.
      `MissingInput` is the single "select a valid folder and enter a keyword" refusal of
      the older tools, `NoValidKeywords` the refusal of a keyword list with only blanks. */
  datatype Verdict = Accepted | NotAFolder | NoKeyword | KeywordTooLong | MissingInput | NoValidKeywords

  /** What a search leaves behind: the refusal of the input checks, or the rows written
      (the CSV file, or the results list of the 10K tools), the preview list, the match
      count, the progress values posted, whether it completed and whether export is
      enabled. */
  datatype Report =
    | Rejected(why: Verdict)
    | Finished(rows: seq<Row>, preview: seq<Row>, count: nat, progress: seq<nat>,
               completed: bool, exportEnabled: bool)

  /** The checks of FolderSearchV3.py and text_search_app.py, in their order, on the
      stripped keyword: a folder that is a directory, a non-empty keyword, at most 100
      characters. */
  function CheckLimited(isDir: bool, keyword: string): (v: Verdict)
    ensures v == Accepted <==> isDir && 0 < |keyword| <= KeywordLimit
    ensures !isDir ==> v == NotAFolder
    ensures isDir && keyword == [] ==> v == NoKeyword
    ensures v == KeywordTooLong ==> |keyword| > KeywordLimit
  {
    if !isDir then NotAFolder
    else if keyword == "" then NoKeyword
    else if |keyword| > KeywordLimit then KeywordTooLong
    else Accepted
  }

  /** The one check of FolderSearchV2.py and the 10K tools: a directory and a non-empty
      (stripped) keyword entry. */
  function CheckPlain(isDir: bool, keyword: string): (v: Verdict)
    ensures v == Accepted <==> isDir && keyword != []
    ensures v == Accepted || v == MissingInput
  {
    if !isDir || keyword == "" then MissingInput else Accepted
  }

  /** The history after a search for `keyword` (already stripped): a new non-empty
      keyword goes to the front and only the first 20 entries are kept; an empty or known
      keyword leaves it as it is. */
  function Pushed(items: seq<string>, keyword: string): seq<string> {
    if keyword != "" && keyword !in items then Take([keyword] + items, HistoryCap) else items
  }

  /** A new keyword is the first entry, followed by the older entries in their order. */
  lemma PushedFront(items: seq<string>, keyword: string)
    requires keyword != "" && keyword !in items
    ensures var r := Pushed(items, keyword);
      1 <= |r| <= HistoryCap && r[0] == keyword && r[1..] <= items
  {
    var r := Pushed(items, keyword);
    assert r == ([keyword] + items)[..|r|];
    assert r[1..] == items[..|r| - 1];
  }

  predicate Distinct(items: seq<string>) {
    forall i, j :: 0 <= i < j < |items| ==> items[i] != items[j]
  }

  /** The history never holds a keyword twice, and never more than 20 entries once it has
      been pushed onto from at most 20. */
  lemma PushedKeepsShape(items: seq<string>, keyword: string)
    requires Distinct(items)
    ensures Distinct(Pushed(items, keyword))
    ensures |items| <= HistoryCap ==> |Pushed(items, keyword)| <= HistoryCap
  {
    if keyword != "" && keyword !in items {
      var r := Pushed(items, keyword);
      var full := [keyword] + items;
      assert r == full[..|r|];
      forall i, j | 0 <= i < j < |r|
        ensures r[i] != r[j]
      {
        assert r[j] == items[j - 1];
        if i > 0 {
          assert r[i] == items[i - 1];
        }
      }
    }
  }

  /** The keyword history list, updated in place when a search starts. */
  class History {
    var items: seq<string>

    constructor (saved: seq<string>)
      ensures items == saved
    {
      items := saved;
    }

    /** Insert a new non-empty keyword at the front, then cut the list to 20 entries. */
    method Add(keyword: string)
      modifies this
      ensures items == Pushed(old(items), keyword)
    {
      if keyword != "" && keyword !in items {
        items := [keyword] + items;
        if |items| > HistoryCap {
          items := items[..HistoryCap];
        }
      }
    }
  }
}
