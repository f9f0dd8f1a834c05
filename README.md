# Folder search, trace parsing and archive renaming: a verified model

This project is a Dafny model of the logic inside a set of Tkinter desktop
tools, with the window code removed:

- **The folder-search tools** (`FolderSearchV6Zip.py`, `FolderSearchV5.py`,
  `text_search_app.py`, `FolderSearchV3.py`, `FolderSearchV2.py`,
  `FolderSerach10KMultiSerach.py`, `FolderSerach10K.py`,
  `FolderSearchV5_Refactored.py`, `FolderSerach.py`, `Serch5line.py`).
  - Each tool walks a folder and reads every candidate file line by line,
    looking for a keyword.
  - It produces one result row per reported line. Some tools add an error
    row for a file they cannot read, and FolderSearchV5 and the newest version
    can add a "no match" row; the table below says which tool does what.
  - FolderSearchV2, V3, V5, the newest version and `text_search_app.py` write
    the rows to a temporary CSV file as they go. `FolderSerach.py`, the two 10K
    tools and `Serch5line.py` keep them in memory and write a CSV only on
    Export. `FolderSearchV5_Refactored.py` only shows them.
  - FolderSearchV2, V3, V5 and the newest version cap the on-screen preview at
    1000 rows (V5 and the newest version unless "show all" is set).
    `text_search_app.py` keeps every row but displays the first 1000. The
    other tools show every row.
  - The newest version also reads the members of `.zip` and `.7z` archives.
  - It can be cancelled from the window while it runs.
- **The trace viewer** (`Cmdv4TraceViewer.py`).
  - It turns trace elements into rows by splitting their payloads into
    fields.
  - It recognises the CNG cash-dispense lines and totals them per
    transaction and per cassette.
- **The archive extractors** (`RenameZipDate.py`, `RenameZip7Z.py`).
  - For every `.zip`/`.7z` archive in a folder, they pick members: either the
    newest `limit` ones, or those whose name carries a `YYYY-MM-DD` date in a
    range.
  - They copy those members to an output folder.
  - Each copy is named after its archive, in Windows-safe form, and gets a
    name that no file in the output folder has. The model compares names
    exactly, while Windows ignores case (see "Left out").

How the model is built:

- **Operations.** Each source function becomes a Dafny function over values.
  Each loop that updates state becomes a method of a class whose fields are
  that state: the CSV rows, the preview, the result list, the encoding cache,
  the keyword history, the extractor's cancel flag and worker.
  - Every method is proved to leave the state, or return the result, that a
    specification function gives.
  - The properties the tools promise are proved about those functions.
- **Inputs from the outside world.** The directory walk, file contents, archive
  listings and the clock are inputs:
  - a folder is the sequence of entries the walk yields;
  - a file is the sequence of its lines, with an optional read failure after
    the last line;
  - the output folder is the set of names it already holds.
- **Cancellation.** A cancel request is a `Stop` value: the first read of the
  stop flag that sees it set. A `threading.Event` stays set, so this
  describes every later read too.
- **Dates.** A date in a name is the ISO 8601 extended calendar-date format
  (`YYYY-MM-DD`, section 4.1.2.2 of ISO 8601:2004). It is read as Python's
  `datetime.strptime(…, "%Y-%m-%d")` reads it: the month and day may also be
  one digit, and the year may use digits of other scripts.

Where the source and its description differ, the model follows the source:

- In `FolderSearchV6Zip.py`, a cancel does not always leave a prefix of what
  the whole search would write (`SearchV6Zip.CancelNotPrefix`).
- In `Cmdv4TraceViewer.py`, a key literally named `F` moves the positional
  counter (`TraceParse.LiteralFShiftsBareNames`).
- In `RenameZipDate.py`, an invalid first date in a name hides any later valid
  one (`RenameZipDate.LaterDateIgnored`).

## Model

| member | source | states |
|---|---|---|
| Matching.SetStays | FolderSearchV6Zip.py:230-232 | once the stop flag is seen set, every later read sees it set |
| Matching.Hits | FolderSearchV6Zip.py:484-490 | every reported index is a line of the text that holds the keyword |
| Matching.HitsShape | FolderSearchV6Zip.py:484-490 | every line holding the keyword is reported, in strictly increasing line order |
| Matching.HitsStep | FolderSearchV6Zip.py:484-490 | reading one more line adds its index exactly when it holds the keyword |
| Matching.ContainsLower | FolderSearchV6Zip.py:244 | a substring stays a substring after both sides are lower-cased |
| Matching.CaseSensitiveHitIsHit | FolderSearchV6Zip.py:244 | a line that matches case-sensitively also matches when case is ignored |
| Matching.Selected | FolderSearchV6Zip.py:491-499 | the reported hits are drawn from the hits |
| Matching.MatchOnceIsFirst | FolderSearchV6Zip.py:491-493 | "match once" reports one line iff some line holds the keyword; that line is the first such line |
| Matching.UseLastIsLast | FolderSearchV6Zip.py:494-499 | "last match only" reports one line iff some line holds the keyword; that line is the last such line |
| Matching.AllHitsReported | FolderSearchV6Zip.py:496-497 | with neither option, a line is reported iff it holds the keyword, in increasing order |
| Matching.Cut | FolderSearchV6Zip.py:484-486 | a scan that reads the flag before each line reads a prefix of the lines; it stops early only at a read that sees the flag, and no earlier read saw it |
| SearchV6Zip.NormalizeExtShape | FolderSearchV6Zip.py:247-248 | a normalised extension starts with `.` and has no upper-case letter |
| SearchV6Zip.NormalizeExts | FolderSearchV6Zip.py:247-248 | there is one extension per non-blank field entry; each is dot-prefixed and lower-case |
| SearchV6Zip.NormalizeExtsAppend | FolderSearchV6Zip.py:247-248 | normalisation works entry by entry, so the list keeps the field's order |
| SearchV6Zip.NormalizeExtsSingle | FolderSearchV6Zip.py:247-248 | a blank entry is dropped; any other entry gives its stripped, lower-cased, dot-prefixed form |
| SearchV6Zip.Start | FolderSearchV6Zip.py:200-248 | a search starts iff the folder is a directory and the stripped keyword and extension entries are non-empty; the keyword is then the stripped entry, or its lower-case form (no upper-case letter, same letters up to case) when case is ignored; there is one dot-prefixed lower-case extension per non-blank field entry |
| SearchV6Zip.Classify | FolderSearchV6Zip.py:250-262 | the walk loop builds the plain candidates in walk order, then the archives in walk order |
| SearchV6Zip.ClassifiedOnce | FolderSearchV6Zip.py:253-262 | with the toggle on, an archive name is in the archive part only; other entries are in the file part iff their lower-cased name ends in an extension |
| SearchV6Zip.WholeFound | FolderSearchV6Zip.py:484-499 | without a cancel, a text counts as found exactly when some line holds the keyword |
| SearchV6Zip.ScanIdx | FolderSearchV6Zip.py:484-499 | the line indices a text leaves are lines that hold the keyword |
| SearchV6Zip.Decide | FolderSearchV6Zip.py:491-499 | the kept indices are among the hits that were read |
| SearchV6Zip.ScanRowsAreHits | FolderSearchV6Zip.py:484-499 | the rows a text leaves are, one for one and in order, its selected hit lines, each with its 1-based number and its text without trailing newlines |
| SearchV6Zip.ScanBounds | FolderSearchV6Zip.py:484-501 | "match once" and "last match only" leave at most one row; a read error surfaces only when the text fails and "match once" did not stop first; rows exist only after a hit |
| SearchV6Zip.ScanFoundIffHit | FolderSearchV6Zip.py:487-489 | without a cancel, a file counts as found iff one of its lines holds the keyword |
| SearchV6Zip.WholeTextIdx | FolderSearchV6Zip.py:484-499 | without a cancel or a read error, a text leaves exactly the hits its policy selects; "match once" stops reading after the first hit |
| SearchV6Zip.ScanWholeText | FolderSearchV6Zip.py:484-499 | without a cancel or a read error, the rows are those of the policy's selected hits |
| SearchV6Zip.ScanAfterStop | FolderSearchV6Zip.py:484-486 | a text whose first flag read sees the flag set leaves no row and no hit |
| SearchV6Zip.Cap | FolderSearchV6Zip.py:508-509 | the preview is a prefix of the written rows: all of them under "show all", otherwise the first min(1000, n) |
| SearchV6Zip.KeptAreNum | FolderSearchV6Zip.py:391 | the hit rows of a text all carry a line number and none is an ERROR row |
| SearchV6Zip.PlainRows | FolderSearchV6Zip.py:477-510 | a plain file with a hit writes its hits, then an ERROR row if reading then failed; a failure before any hit writes nothing, even with "include non-matching"; a file without a hit writes one "[No match found]" row iff that option is set |
| SearchV6Zip.PlainCount | FolderSearchV6Zip.py:510 | a plain file's count is its numbered rows, plus its one ERROR row when the failure came after a hit |
| SearchV6Zip.MemberRows | FolderSearchV6Zip.py:361-391 | a failing member leaves exactly one uncounted ERROR row; otherwise its hits, all counted, or one "[No match found]" row iff that option is set |
| SearchV6Zip.MemberRowsCount | FolderSearchV6Zip.py:391 | a member's count is 0 after a read error and its number of hits otherwise |
| SearchV6Zip.MemberAfterStop | FolderSearchV6Zip.py:354-391 | after a cancel, each later eligible member costs one flag read, counts nothing, and leaves a "[No match found]" row iff that option is set |
| SearchV6Zip.MembersCount | FolderSearchV6Zip.py:387-391 | the members' total count equals their numbered rows |
| SearchV6Zip.ArchiveCount | FolderSearchV6Zip.py:337-444 | an archive's count is exactly its numbered rows, so "-" and ERROR rows are excluded |
| SearchV6Zip.EntryCount | FolderSearchV6Zip.py:459-510 | an entry's count lies between its numbered rows and its numbered plus ERROR rows |
| SearchV6Zip.RunCount | FolderSearchV6Zip.py:452-510 | after any number of entries, the total lies between the numbered rows and the numbered plus ERROR rows |
| SearchV6Zip.SearchCount | FolderSearchV6Zip.py:446-517 | a search's reported total lies between the CSV's numbered rows and its numbered plus ERROR rows |
| SearchV6Zip.StoppedStays | FolderSearchV6Zip.py:452-454 | once the flag is seen at the top of an entry, later entries change nothing |
| SearchV6Zip.CancelAfterFirst | FolderSearchV6Zip.py:452-454 | a flag first seen at the second entry's check leaves exactly the first entry's rows |
| SearchV6Zip.PostedCadence | FolderSearchV6Zip.py:513-514 | progress is posted, in increasing order, at exactly every tenth entry and at the last one |
| SearchV6Zip.ShownProgress | FolderSearchV6Zip.py:298-299 | the progress bar shows the total when all entries are done, and otherwise the last multiple of ten reached |
| SearchV6Zip.CapStep | FolderSearchV6Zip.py:508-509 | appending while the preview is under 1000 (or always under "show all") keeps the preview the cap of the rows |
| SearchV6Zip.CapMerge | FolderSearchV6Zip.py:462-467 | merging an archive's capped preview into the room left gives the cap of all rows |
| SearchV6Zip.MergeIsCap | FolderSearchV6Zip.py:459-467 | the file loop's preview after an archive is the cap of every row written so far |
| SearchV6Zip.NeverStopped | FolderSearchV6Zip.py:452-454 | without a cancel, every entry is processed |
| SearchV6Zip.StoppedIsCancelled | FolderSearchV6Zip.py:298 | a search stopped at an entry's check finds the flag set at the final read |
| SearchV6Zip.CompleteWithoutStop | FolderSearchV6Zip.py:298-301 | without a cancel, a search with candidates processes all of them and reports "complete" with its total |
| SearchV6Zip.StoppedReportsCancelled | FolderSearchV6Zip.py:298-299 | a stopped search reports "cancelled" with the last multiple of ten reached |
| SearchV6Zip.StoppedBeforeLast | FolderSearchV6Zip.py:452-454 | a stopped search has skipped at least one entry |
| SearchV6Zip.CancelNotPrefix | FolderSearchV6Zip.py:484-499 | with "last match only", a cancel mid-file writes the last hit read so far; so the rows are not a prefix of what the full search writes |
| SearchV6Zip.Scanner.constructor | FolderSearchV6Zip.py:200-248 | the worker of a search that `Start` accepts compares the normalised keyword and extensions, and has written no row, read the flag zero times and posted no progress |
| SearchV6Zip.Scanner.ReadLines | FolderSearchV6Zip.py:484-497 | the line loop ends in the state the loop invariant describes, having read every line unless it broke out |
| SearchV6Zip.Scanner.ReadLine | FolderSearchV6Zip.py:489-497 | one line read with the flag clear keeps the line loop's invariant: a hit is recorded, and in match-once mode it ends the loop |
| SearchV6Zip.Scanner.ScanText | FolderSearchV6Zip.py:480-501 | reading one text gives the scan specification's result and leaves the flag-read count it gives |
| SearchV6Zip.Scanner.WriteRows | FolderSearchV6Zip.py:506-509 | rows are appended to the CSV, and the preview stays the cap of everything written |
| SearchV6Zip.Scanner.ProcessPlain | FolderSearchV6Zip.py:470-510 | a plain file appends the rows the specification gives, keeps the preview capped and returns its count |
| SearchV6Zip.Scanner.ProcessMember | FolderSearchV6Zip.py:361-391 | a member appends its specified rows and returns its numbered-row count |
| SearchV6Zip.Scanner.ProcessArchive | FolderSearchV6Zip.py:337-444 | an archive appends its specified rows, returns their capped preview and their count |
| SearchV6Zip.Scanner.ScanMembers | FolderSearchV6Zip.py:354-391 | the member loop skips directories and other extensions, and appends the rows of the others in archive order |
| SearchV6Zip.Scanner.ProcessEntry | FolderSearchV6Zip.py:456-510 | one entry of the file list appends its specified rows, and the merged preview is the cap of all rows |
| SearchV6Zip.Scanner.ProcessFiles | FolderSearchV6Zip.py:446-517 | the file loop writes the specified search's rows, returns their cap and total, and posts progress at every tenth entry and the last |
| SearchV6Zip.Scanner.NextEntry | FolderSearchV6Zip.py:451-517 | one entry taken with the flag clear extends the file loop's invariant by that entry: its rows written, its hits counted, progress posted on a tenth entry or the last |
| SearchV6Zip.Scanner.SearchFiles | FolderSearchV6Zip.py:234-305 | for a walk whose names are the base names of their paths: a search with no candidate file writes nothing and says so; otherwise the CSV is the search's rows, the preview their cap, and the status "cancelled" or "complete" |
| LongPaths.SafePathUnc | FolderSearchV6Zip.py:37-46 | off Windows the path is unchanged; on Windows the result always carries the `\\?\` prefix, and an already-prefixed absolute path is returned as it is |
| LongPaths.SafePathPlain | FolderSearchV5.py:24-30 | off Windows the path is unchanged; on Windows the result is the absolute path, with `\\?\` prepended unless it is already there |
| LongPaths.SafePathUncRecovers | FolderSearchV6Zip.py:40-46 | drive paths and UNC paths alike can be read back from the rewritten path, so the `\\?\UNC\` form loses nothing |
| LongPaths.SafePathUncIdempotent | FolderSearchV6Zip.py:40-43 | rewriting an already rewritten path changes nothing |
| LongPaths.SafePathPlainIdempotent | FolderSearchV3.py:13-18 | rewriting an already rewritten path changes nothing |
| LongPaths.VariantsCompared | FolderSearchV5.py:24-30 | the two variants agree on drive paths but differ on every UNC share path |
| SearchForm.CheckLimited | FolderSearchV3.py:126-137 | a search is accepted iff the folder is a directory and the stripped keyword has 1 to 100 characters; the first failing check is the one reported |
| SearchForm.CheckPlain | FolderSearchV2.py:84-88 | a search is accepted iff the folder is a directory and the stripped keyword is non-empty |
| SearchForm.PushedFront | FolderSearchV3.py:97-103 | a new non-empty keyword becomes the first history entry, followed by the older entries in order, with at most 20 in all |
| SearchForm.PushedKeepsShape | text_search_app.py:192-196 | the history never holds a keyword twice and stays within 20 entries |
| SearchForm.History.constructor | text_search_app.py:88 | the history starts as the saved list |
| SearchForm.History.Add | text_search_app.py:192-194 | the in-place insert and truncation leave the list that `Pushed` describes |
| FoundRows.HitsOf | FolderSearchV3.py:168-170 | every reported index is a line, among those read, that passes the line test |
| FoundRows.HitsOfShape | FolderSearchV3.py:168-170 | the hits are exactly the passing lines, in strictly increasing order |
| FoundRows.HitsOfNext | FolderSearchV3.py:168-170 | reading one more line adds its index exactly when it passes |
| FoundRows.HitsOfPrefix | FolderSearchV3.py:168-170 | the hits among fewer lines are a prefix of the hits among more |
| FoundRows.HitsOfIsHits | FolderSearchV3.py:139-170 | under the single-keyword test, the hits are those of the newest tool's engine |
| FoundRows.KeptIsSelected | FolderSearchV3.py:171-188 | the written hits are those the policy selects, except that a failing read loses the deferred "last match only" row |
| FoundRows.FileCountIsHitRows | FolderSearchV3.py:172-192 | a file's count is its number of hit rows; it has at most one other row, the error row |
| FoundRows.KeptAreHits | FolderSearchV3.py:171-188 | the written hits are hits, in increasing order |
| FoundRows.RowsForAt | FolderSearchV3.py:171-192 | a file's rows are its kept hits' rows, then the error row iff the read error reaches the handler |
| FoundRows.FileRowsAreHits | FolderSearchV3.py:168-192 | every row is either a passing line's stripped text under its 1-based number, or the line-0 error row, written last |
| FoundRows.FileRowsIncrease | FolderSearchV3.py:168-188 | a file's hit rows come in increasing line order |
| FoundRows.KeptFirst | FolderSearchV3.py:171-176 | "match once" keeps one hit iff a line passes, and it is the first passing line |
| FoundRows.MatchOnceCount | FolderSearchV3.py:171-176 | "match once" counts at most one hit per file, and one iff some line passes |
| FoundRows.MatchOnceRows | FolderSearchV2.py:122-123 | "match once": the one hit row is the first passing line and nothing follows it; a file with no hit writes only its error row, if any |
| FoundRows.KeptLast | FolderSearchV3.py:177-188 | "last match only" keeps at most one hit, the last passing line; it keeps none when the read fails |
| FoundRows.UseLastRows | FolderSearchV3.py:177-192 | "last match only": a failing read writes the error row alone; otherwise one row iff a line passes, and it is the last passing line |
| FoundRows.AllHitsLength | FolderSearchV3.py:179-192 | with neither option, every hit is counted and written, plus one error row after them if the read fails |
| FoundRows.AllHitsRows | FolderSearchV3.py:179-183 | with neither option, a line passes iff its row is among the counted rows |
| FoundRows.AllHitsAt | FolderSearchV3.py:179-183 | rows that follow a hit list one for one show every passing line and no other |
| FoundRows.RunToNext | FolderSearchV3.py:158-192 | each file adds its own rows and count after the earlier files' |
| FoundRows.ProcessedStep | FolderSearchV3.py:158-161 | the file loop continues while the flag is clear, and ends exactly where the search stops |
| FoundRows.FileStepCounts | FolderSearchV3.py:172-192 | each file's count is its number of hit rows |
| FoundRows.RunToCount | FolderSearchV3.py:158-192 | after any number of files, the count is the number of hit rows written |
| FoundRows.SearchCount | FolderSearchV3.py:156-201 | the reported match count equals the hit rows written; error rows are not counted |
| FoundRows.RunToPrefix | FolderSearchV3.py:158-192 | the rows after fewer files are a prefix of the rows after more |
| FoundRows.CancelledIsPrefix | FolderSearchV3.py:158-161 | the flag is read only between files, so a cancelled search writes a prefix of the full search's rows; without a cancel every file is searched |
| FoundRows.PostedBounds | FolderSearchV3.py:194-196 | the progress values posted are increasing file indices |
| FoundRows.TenthProgress | FolderSearchV2.py:129-132 | posting only at every tenth file leaves the bar at the last multiple of ten, below the total unless the total is a multiple of ten |
| FoundRows.FullProgress | FolderSearchV3.py:194-196 | the cadences that also post the last file end with the bar full |
| FoundRows.PreviewShape | FolderSearchV3.py:174-191 | the preview is a prefix of the rows: at most 1000 when capped, and all of them when there are few or it is uncapped |
| FoundRows.PreviewStep | FolderSearchV3.py:174-175 | appending while the preview is under 1000 keeps it the cap of the rows |
| FoundRows.ScanMiss | FolderSearchV3.py:168-170 | a line that does not pass only moves the loop on |
| FoundRows.ScanHit | FolderSearchV3.py:171-183 | a hit without "last match only" is written and counted at once, and "match once" stops there |
| FoundRows.ScanDefer | FolderSearchV3.py:177-178 | under "last match only" a hit is remembered, not written |
| FoundRows.ScanEnd | FolderSearchV3.py:184-192 | the rows written during and after the loop are the file's rows, and its count adds the deferred row |
| FoundRows.Searcher.constructor | FolderSearchV3.py:155-156 | a search starts with no rows, an empty preview, count 0 and no progress |
| FoundRows.Searcher.Emit | FolderSearchV3.py:173-175 | a row is written, and it joins the preview unless the preview is full |
| FoundRows.Searcher.ReadLine | FolderSearchV3.py:168-183 | one line of the reading loop keeps the loop state that `ScanInv` describes |
| FoundRows.Searcher.ReadLines | FolderSearchV3.py:167-183 | the reading loop reads to the end or to a "match once" hit, and writes and counts the rows it describes |
| FoundRows.Searcher.ScanFile | FolderSearchV3.py:164-192 | one file appends exactly its specified rows and adds its count |
| FoundRows.Searcher.SearchOne | FolderSearchV3.py:163-197 | one pass of the file loop extends the rows, count and progress by one file |
| FoundRows.Searcher.ScanFiles | FolderSearchV3.py:158-197 | the file loop searches exactly the files before the flag is seen, in order, posting progress at the tool's cadence |
| FoundRows.Searcher.SearchFiles | FolderSearchV3.py:155-201 | a search leaves the specified rows and count, and completes iff the final flag read finds it clear |
| FoundRows.FileListMembers | FolderSearchV3.py:141-145 | a file is listed iff it is in the walk and its name (lower-cased when the tool folds case) ends in one of the extensions |
| FoundRows.FileListAppend | FolderSearchV3.py:141-145 | the selection works file by file, so the list keeps walk order |
| FoundRows.CollectFiles | FolderSearchV3.py:141-145 | the walk loop builds exactly the selected list |
| FoundRows.RunSearch | FolderSearchV3.py:150-207 | a fresh search yields the specified rows and count, a preview capped at 1000, the cadence's progress, and completion iff no cancel was seen |
| SearchV5.Entries | FolderSearchV5.py:208 | the entries are non-empty and no more than the comma-separated pieces |
| SearchV5.EntriesMembers | FolderSearchV5.py:208 | an entry is exactly a non-blank piece, stripped; it is neither lower-cased nor dot-prefixed |
| SearchV5.UpperEntrySelectsNothing | FolderSearchV5.py:210-212 | entries are compared verbatim with the lower-cased name, so an entry with an upper-case letter selects no file |
| SearchV5.FileRowsShape | FolderSearchV5.py:278-284 | a file without hits writes one "-" row iff "include non-matching" is set and its read did not fail; a read failure before any hit writes nothing; a file with hits writes its kept hits, then the ERROR row if the read failed |
| SearchV5.MatchesCounts | FolderSearchV5.py:264-279 | the collected rows are the kept hits, numbered, then at most one ERROR row |
| SearchV5.FileCountParts | FolderSearchV5.py:290 | a file's count is its numbered rows plus its ERROR row; a "-" row is never counted |
| SearchV5.ReadMiss | FolderSearchV5.py:264-266 | a line without the keyword only moves the loop on |
| SearchV5.ReadFirst | FolderSearchV5.py:269-271 | under "match once" the first hit is collected and ends the loop |
| SearchV5.ReadLast | FolderSearchV5.py:272-273 | under "last match only" a hit is remembered, not collected |
| SearchV5.ReadAll | FolderSearchV5.py:274-275 | with neither option, every hit is collected at once |
| SearchV5.ReadEnd | FolderSearchV5.py:276-279 | after the loop, adding the error row or the remembered row gives the file's collected rows |
| SearchV5.ReadLine | FolderSearchV5.py:264-275 | one line of the reading loop keeps the invariant and records the line as a hit iff it holds the keyword |
| SearchV5.ReadLines | FolderSearchV5.py:264-275 | the reading loop runs to the end or to the "match once" hit, and reports whether a line held the keyword |
| SearchV5.ReadFile | FolderSearchV5.py:260-279 | reading a file collects exactly its specified rows and finds a hit iff some line holds the keyword |
| SearchV5.CapStep | FolderSearchV5.py:288-289 | a row joins the preview exactly while the preview holds fewer than 1000 rows, or always under "show all" |
| SearchV5.CapShape | FolderSearchV5.py:286-289 | the preview is a prefix of the written rows: all of them under "show all", otherwise the first min(1000, n) |
| SearchV5.CountsJoin | FolderSearchV5.py:290 | counts that match their numbered and ERROR rows add up across files |
| SearchV5.RunCount | FolderSearchV5.py:252-290 | over the whole search, the count is the number of numbered and ERROR rows written |
| SearchV5.WriteRows | FolderSearchV5.py:286-289 | a file's rows are appended to the CSV, and the preview stays the cap of everything written |
| SearchV5.ProcessFile | FolderSearchV5.py:256-290 | one file appends its specified rows and adds its specified count; the preview stays capped |
| SearchV5.RunToNext | FolderSearchV5.py:252-290 | each file adds its own rows and count after the earlier files' |
| SearchV5.ProcessOne | FolderSearchV5.py:256-296 | one pass of the file loop extends the rows, count and progress by one file |
| SearchV5.ProcessFiles | FolderSearchV5.py:247-298 | the file loop searches exactly the files before the flag is seen (the flag is never read inside a file) and posts progress at every tenth file and the last |
| SearchV5.Search | FolderSearchV5.py:166-245 | a missing folder, keyword or extension field is refused; an empty file list ends with "no matching file types"; otherwise the rows, count, preview and progress are those specified, the count is the numbered plus ERROR rows, and "cancelled" iff the final flag read finds it set |
| TextSearch.Suffix | text_search_app.py:66 | a file's suffix is empty, or a tail of its name that starts with its only dot and has at least one character after it |
| TextSearch.Detected | text_search_app.py:69-76 | the encoding is never empty: it is the detector's non-empty guess, and `utf-8` when there is no guess or the read fails |
| TextSearch.EncodingCache.constructor | text_search_app.py:62-68 | the cache starts empty |
| TextSearch.EncodingCache.Detect | text_search_app.py:62-78 | a cached lower-cased suffix answers without reading and the cache is unchanged; otherwise the guess is returned and stored under that suffix, and no other key changes |
| TextSearch.SameSuffixSameGuess | text_search_app.py:66-68 | files with the same lower-cased suffix share one guess |
| TextSearch.SearchFolder | text_search_app.py:214-304 | the checks reject before any file is read; otherwise the rows, count and progress are FolderSearchV3.py's; the preview holds every row; export is enabled iff a hit row was written |
| TextSearch.Displayed | text_search_app.py:308 | the window shows the first min(1000, n) preview rows |
| TextSearch.NoteNeverShown | text_search_app.py:313 | as written, the "showing first …" note never appears, even when more than 1000 counted rows are cut to 1000 |
| TextSearch.NoteDueWhenCut | text_search_app.py:306-313 | the intended note appears exactly when more counted matches exist than are displayed |
| SearchV3.SearchFolder | FolderSearchV3.py:119-207 | the three checks reject in order before any file is read; otherwise the rows, count, capped preview and progress are those the shared engine specifies; export is enabled iff a hit row was written |
| SearchV2.SearchFolder | FolderSearchV2.py:83-140 | a missing folder or keyword is refused; otherwise every case-sensitive hit (only the first per file under "match once") is written and counted, the preview is capped at 1000, and progress is posted at every tenth file only |
| SearchV2.PlainIsCaseSensitive | FolderSearchV2.py:117 | the plain substring test is the single-keyword test with case sensitivity on |
| Search10K.SearchFolder | FolderSerach10K.py:61-113 | a blank folder or keyword is refused; otherwise the results are every hit row of the files processed before the stop request (the list was cleared at start), the preview is all of them, the status count is their number including error rows, progress is posted after every file, and export is enabled exactly when there are rows |
| Search10K.SuffixCase | FolderSerach10K.py:83 | the suffix test is case-sensitive: `a.XML` is searched, `a.xml` and `a.TXT` are not |
| Search10KMulti.NonBlank | FolderSerach10KMultiSerach.py:83 | the keyword list is never longer than the comma-separated pieces and holds no empty keyword |
| Search10KMulti.NonBlankMembers | FolderSerach10KMultiSerach.py:83 | a text is a keyword exactly when it is some piece, stripped and lower-cased, that is not blank |
| Search10KMulti.NonBlankEmpty | FolderSerach10KMultiSerach.py:83-88 | the keyword list is empty (and the search refused) exactly when every piece is blank |
| Search10KMulti.MentionsAnyIsSomeKeyword | FolderSerach10KMultiSerach.py:107-109 | a line is a hit exactly when some non-blank piece, used alone, passes the case-insensitive containment test |
| Search10KMulti.SearchFolder | FolderSerach10KMultiSerach.py:64-123 | a blank folder or entry is refused, then an entry of only blank pieces; otherwise every hit row (any keyword, ignoring case) of the lower-case-suffix-selected files processed before the stop, all shown, counted with the error rows, progress after every file, export enabled iff there are rows |
| SearchRefactored.HitRowsSound | FolderSearchV5_Refactored.py:18-22 | each row carries a 1-based number of a line that passes the test, with that line's path and stripped text |
| SearchRefactored.HitRowsComplete | FolderSearchV5_Refactored.py:18-22 | every line that passes the test has its row |
| SearchRefactored.HitRowsIncrease | FolderSearchV5_Refactored.py:18-22 | rows come in strictly increasing line order |
| SearchRefactored.FileMatchesEnd | FolderSearchV5_Refactored.py:14-25 | the hit rows come first, followed by one ERROR row exactly when reading raised |
| SearchRefactored.SearchInFile | FolderSearchV5_Refactored.py:14-25 | the loop builds exactly the file's hit rows followed by its ERROR row if reading failed |
| SearchRefactored.ListingErrors | FolderSearchV5_Refactored.py:23-24 | a whole search shows exactly one ERROR row per unreadable file |
| SearchRefactored.KeywordCaseIgnored | FolderSearchV5_Refactored.py:77 | in a case-insensitive search lower-casing the keyword first changes no result |
| SearchRefactored.Search | FolderSearchV5_Refactored.py:67-88 | the search is refused exactly when the folder or keyword entry is empty (no directory check); otherwise every file of the walk is searched, in walk order |
| FolderSearchBasic.FileResultsDropError | FolderSerach.py:14-19 | a file's rows are the all-hits rows other tools write, minus the error row: a read error only prints to the console |
| FolderSearchBasic.FileResultsAreHits | FolderSerach.py:15-17 | each row is a line containing the keyword under its 1-based number, and every such line has its row |
| FolderSearchBasic.FileResultsSound | FolderSerach.py:15-17 | each row is a line containing the keyword, under its 1-based number, with its stripped text |
| FolderSearchBasic.FileResultsComplete | FolderSerach.py:15-17 | every line containing the keyword has its row |
| FolderSearchBasic.FileResultsIncrease | FolderSerach.py:15-17 | rows of a file come in strictly increasing line order |
| FolderSearchBasic.ResultsAreHits | FolderSerach.py:18-19 | no row of a search is an error row |
| FolderSearchBasic.ReadFile | FolderSerach.py:14-19 | the line loop yields exactly the file's rows |
| FolderSearchBasic.SearchTextInFiles | FolderSerach.py:7-20 | the walk loop yields the rows of the `.txt`/`.log` files in walk order |
| FolderSearchBasic.CsvTable | FolderSerach.py:23-27 | the table is the header followed by one row per result, in order |
| FolderSearchBasic.CsvReadsBack | FolderSerach.py:23-27 | each data row is three cells: the name, a decimal numeral whose value is the line number, and the text |
| FolderSearchBasic.SearchWindow.constructor | FolderSerach.py:63 | a new window has no results and export disabled |
| FolderSearchBasic.SearchWindow.RunSearch | FolderSerach.py:71-85 | a non-directory folder or empty keyword leaves the window as it was; otherwise the results are replaced by the search's rows and export is enabled exactly when there are any |
| FolderSearchBasic.SearchWindow.Export | FolderSerach.py:87-93 | nothing is written without results; otherwise the CSV table of the results |
| FiveLine.ContextShape | Serch5line.py:27-28 | a context holds one to six lines and ends with the hit line |
| FiveLine.FoundSound | Serch5line.py:25-31 | each result is a line holding both words, under its 1-based number, with the lines from five before it through it |
| FiveLine.FoundOrdered | Serch5line.py:25-31 | results come in strictly increasing line order |
| FiveLine.FoundComplete | Serch5line.py:25-31 | every line holding both words has its result |
| FiveLine.Session.constructor | Serch5line.py:65 | a new session has no results |
| FiveLine.Session.Search | Serch5line.py:9-34 | without a path or either word, or when the file cannot be read, the results stay as they were; otherwise they become exactly the file's results |
| FiveLine.Session.Export | Serch5line.py:37-53 | with no results nothing is exported; otherwise the exported table is the header followed by one row per result |
| FiveLine.ExportRows | Serch5line.py:46-53 | the table is the header followed by one row per result, in order |
| FiveLine.ExportRowShape | Serch5line.py:50-53 | each exported row is two cells: a numeral reading back as the line number, and the context with no newline left in it |
| TraceParse.StripNs | Cmdv4TraceViewer.py:56-57 | a tag without `}` is returned whole; otherwise the result is exactly the text after the first `}` |
| TraceParse.StripNsQualified | Cmdv4TraceViewer.py:56-57 | a Clark-notation tag `{namespace}local` loses exactly its namespace part |
| TraceParse.PiecesMembers | Cmdv4TraceViewer.py:63 | a piece is exactly a non-blank part, stripped |
| TraceParse.PiecesOfTrimmed | Cmdv4TraceViewer.py:63 | parts already non-blank and stripped pass through unchanged and in order |
| TraceParse.PayloadSegments | Cmdv4TraceViewer.py:60-63 | every payload segment is non-blank, has no surrounding whitespace and holds no `;` |
| TraceParse.PayloadOfJoin | Cmdv4TraceViewer.py:60-63 | splitting a `;`-join of non-blank, trimmed, `;`-free segments gives the segments back |
| TraceParse.PutSpec | Cmdv4TraceViewer.py:86 | an ordered-dictionary assignment keeps keys distinct, keeps a present key's place, appends a new key last, and changes no other entry |
| TraceParse.PutStores | Cmdv4TraceViewer.py:86 | the assigned key is always present afterwards |
| TraceParse.PutKeepsKeys | Cmdv4TraceViewer.py:86 | an assignment never removes a key |
| TraceParse.KvPart | Cmdv4TraceViewer.py:76-86 | one pass of the key=value loop: split at the first `=` (or name a bare part from the `F` counter), count the name, store under `k` or `k#n` |
| TraceParse.KvFields | Cmdv4TraceViewer.py:74-86 | the key=value loop produces the fold of those passes over the parts, in order |
| TraceParse.PositionalFields | Cmdv4TraceViewer.py:87-90 | the positional loop stores part i (from 1) as `Fi`, in order |
| TraceParse.ParseSegment | Cmdv4TraceViewer.py:66-91 | a blank segment gives no fields; key=value mode as soon as one part holds `=`; positional mode otherwise |
| TraceParse.SegmentKeysDistinct | Cmdv4TraceViewer.py:66-91 | the resulting dictionary never holds a key twice |
| TraceParse.PositionalOfJoin | Cmdv4TraceViewer.py:71-90 | with no `=`, a comma-join of non-blank, trimmed values parses back to `F1`..`Fn` holding those values |
| TraceParse.SeenCountsKey | Cmdv4TraceViewer.py:74-84 | for a key not starting with `F`, its counter equals the number of parts naming it |
| TraceParse.RepeatedKey | Cmdv4TraceViewer.py:83-86 | the n-th part naming a key is stored under the key itself when n is 1 and under `key#n` after that |
| TraceParse.KvRunKeepsKeys | Cmdv4TraceViewer.py:75-86 | a key stored by some prefix of the parts is still present after all of them |
| TraceParse.LiteralFirst | Cmdv4TraceViewer.py:77-86 | a first part `F=v` stores the literal key `F` and counts it once |
| TraceParse.BarePart | Cmdv4TraceViewer.py:80-86 | a bare part is appended under `F(n+1)`, n being the count kept under the name `F` |
| TraceParse.LiteralFShiftsBareNames | Cmdv4TraceViewer.py:80-86 | a literal key `F` shares the bare-part counter: in `F=v, x` the bare part is stored as `F2` |
| TraceParse.DetectCng | Cmdv4TraceViewer.py:106-111 | a record is a dispense mix exactly when its upper-cased type is `CNG_DISP_STANDARD` or its upper-cased payload contains that word |
| TraceParse.DetectIgnoresCase | Cmdv4TraceViewer.py:106-111 | detection does not depend on letter case |
| TraceParse.ParseCngLine | Cmdv4TraceViewer.py:114-134 | no result exactly when fewer than four non-blank fields remain after dropping a leading tag word; otherwise count, cassette and amount are integers when `int()` accepts them, else text, and the flag is the fourth field |
| TraceParse.CngLineRoundTrip | Cmdv4TraceViewer.py:114-134 | a line written from three numbers and a flag reads back as those integers and that flag |
| TraceParse.CngLineTagDropped | Cmdv4TraceViewer.py:118-119 | a leading `CNG_DISP_STANDARD` word in any case is dropped before the four fields |
| TraceParse.LeadingDigits | Cmdv4TraceViewer.py:518 | the count is the length of the maximal run of digits at the start of the key |
| TraceParse.FoldKey | Cmdv4TraceViewer.py:515-519 | a key of two or more characters starting with a digit has its leading digits replaced by `n`; other keys are kept |
| TraceParse.CassetteKeyFolds | Cmdv4TraceViewer.py:515-519 | every cassette's copy `<c><field>` of a field folds to `n<field>` |
| TraceParse.CassetteKeysShareEntry | Cmdv4TraceViewer.py:515-520 | every cassette's copy of a field is described by the one `n`-form glossary entry |
| TraceParse.DescribeFallbacks | Cmdv4TraceViewer.py:521-532 | without a glossary entry a key has no definition outside a CNG_DISP_STANDARD view, and inside one `F4` is described by its result-flag meaning |
| TraceParse.Viewer.constructor | Cmdv4TraceViewer.py:226-247 | a new viewer has no rows, an empty query and both selectors on "All" |
| TraceParse.Viewer.CurrentRows | Cmdv4TraceViewer.py:435-445 | the result is the loaded rows passing the tag, type and text filters, in load order; a row is in it exactly when it is loaded and passes |
| TraceParse.RawTextFound | Cmdv4TraceViewer.py:442-443 | text found (ignoring case) in a row's raw segment is found by the filter box |
| CngReport.LastIndex | Cmdv4TraceViewer.py:154 | the index lies in the text or is -1 (used to read the counter back from a transaction id) |
| CngReport.LastIndexAfter | Cmdv4TraceViewer.py:154 | after a text with no `#` in its tail, the last `#` is the one before that tail |
| CngReport.CounterOfTxnId | Cmdv4TraceViewer.py:154 | the counter can be read back from a transaction id `dateTtime#n`, whatever the date and time hold |
| CngReport.TxnIdsDiffer | Cmdv4TraceViewer.py:154 | transaction ids with different counters differ |
| CngReport.CounterGrows | Cmdv4TraceViewer.py:140-153 | a later detected element always has a larger counter |
| CngReport.SeparateTransactions | Cmdv4TraceViewer.py:140-154 | two detected elements never share a transaction id, even with equal date and time |
| CngReport.LedgerKeys | Cmdv4TraceViewer.py:187-193 | there is a summary exactly for each transaction id that has an item, each listed once in first-item order |
| CngReport.ReportsTogether | Cmdv4TraceViewer.py:197-221 | the summary dictionary is empty exactly when there are no items, so both files are written or neither |
| CngReport.LedgerTotals | Cmdv4TraceViewer.py:187-192 | a transaction's note and amount totals are the sums of its items' integer counts and amounts; text values add nothing |
| CngReport.NoItemsNoSum | Cmdv4TraceViewer.py:187-192 | items of other transactions contribute nothing to a transaction's sums |
| CngReport.CassetteTotals | Cmdv4TraceViewer.py:187-192 | a cassette's tally is the sum of the integer counts and amounts of the transaction's items drawn from that cassette |
| CngReport.BillTally | Cmdv4TraceViewer.py:187-192 | billing an item adds its integer count and amount to its own cassette only |
| CngReport.BillKeepsSums | Cmdv4TraceViewer.py:187-194 | billing an item keeps the cassette list duplicate-free and the cassette tallies adding up to the totals |
| CngReport.CassettesAddUp | Cmdv4TraceViewer.py:187-194 | every transaction's cassette tallies add up to its note and amount totals |
| CngReport.PostItem | Cmdv4TraceViewer.py:187-194 | one item's update of the two dictionaries equals the summary-update function |
| CngReport.AddSegments | Cmdv4TraceViewer.py:156-194 | the segment loop appends one item per parsing segment, in order, and keeps the summaries equal to those of all items so far |
| CngReport.AddSegment | Cmdv4TraceViewer.py:157-188 | a segment that parses appends one item and the summaries stay those of all items so far; any other segment changes nothing |
| CngReport.ExportCng | Cmdv4TraceViewer.py:137-222 | the items are those of every detected element in document order, the summaries are those of the items, and each file is written exactly when there are items |
| ArchiveRules.ReplaceInvalid | RenameZip7Z.py:19-22 | the substitution keeps the length of the name |
| ArchiveRules.ReplacedValid | RenameZip7Z.py:19-22 | no character of the substituted name is one Windows forbids in names or a control character |
| ArchiveRules.Sanitize | RenameZip7Z.py:21-23 | the result is never empty (`unnamed` when nothing is left) |
| ArchiveRules.TrimShape | RenameZip7Z.py:22 | what `strip().rstrip(". ")` leaves is a piece of its input starting with no whitespace and ending in neither a dot nor a space |
| ArchiveRules.SanitizeSpec | RenameZip7Z.py:21-23 | a cleaned name is non-empty, holds no forbidden character, starts with no whitespace and ends in neither a dot nor a space |
| ArchiveRules.SanitizeCut | RenameZip7Z.py:21-23 | the result is `unnamed` or a piece of the substituted name with only leading whitespace and trailing whitespace and dots cut off |
| ArchiveRules.SanitizeFixes | RenameZip7Z.py:21-23 | a name that is already clean is returned unchanged |
| ArchiveRules.SanitizeIdempotent | RenameZip7Z.py:21-23 | cleaning twice equals cleaning once when the first result does not end in whitespace |
| ArchiveRules.SanitizeNotIdempotent | RenameZip7Z.py:22 | cleaning is not idempotent in general: `a`+NBSP+`.` cleans to `a`+NBSP, which cleans to `a` |
| ArchiveRules.DigitsBeforeParen | RenameZip7Z.py:31 | a digit string followed by `)` is determined by where the `)` is |
| ArchiveRules.NumberedInjective | RenameZip7Z.py:31 | different counters give different ` (i)` candidates |
| ArchiveRules.TakenBound | RenameZip7Z.py:29-34 | at most as many consecutive candidates as there are existing names can all be taken, so the probe loop ends |
| ArchiveRules.FreeIndexSpec | RenameZip7Z.py:29-34 | the probe from 1 stops at the least counter whose candidate is free |
| ArchiveRules.UniqueNameSpec | RenameZip7Z.py:25-34 | the chosen name is never taken (names compared exactly): the base itself when free, else the least-numbered free candidate |
| ArchiveRules.UniquePath | RenameZip7Z.py:25-34 | the probing loop returns exactly that name |
| ArchiveRules.LimitOfDigits | RenameZip7Z.py:124-135 | a run of decimal digits of any supported script reads as its value: positive is the limit, zero means no limit |
| ArchiveRules.NormalizeKeepsAscii | RenameZip7Z.py:131 | normalising leaves ASCII digits and minus signs alone |
| ArchiveRules.LimitOfNumeral | RenameZip7Z.py:124-135 | `str(n)` for a positive n is the limit n |
| ArchiveRules.LimitOfNegative | RenameZip7Z.py:133 | a negative number means no limit |
| ArchiveRules.LimitRejectsLetter | RenameZip7Z.py:134-135 | a field holding a Latin letter is refused as invalid |
| ArchiveRules.Insert | RenameZip7Z.py:189 | inserting adds exactly one element |
| ArchiveRules.SortBy | RenameZip7Z.py:189 | sorting keeps the length |
| ArchiveRules.InsertPerm | RenameZip7Z.py:189 | inserting adds exactly the element to the multiset |
| ArchiveRules.InsertedAfter | RenameZip7Z.py:189 | an element that may precede the new one and all others may precede everything after insertion |
| ArchiveRules.InsertSpec | RenameZip7Z.py:189 | inserting into an ordered sequence keeps it ordered and adds exactly the element |
| ArchiveRules.SortBySpec | RenameZip7Z.py:189 | for a total, transitive ordering the sort is a permutation of its input, in order |
| ArchiveRules.NewestFirstOrders | RenameZip7Z.py:189 | `reverse=True` on an integer key is a total, transitive ordering |
| ArchiveRules.PickNewestSpec | RenameZip7Z.py:189-190 | the pick holds min(limit, n) items (all without a limit), newest first; with the items passed over it is a permutation of the input, and nothing passed over is newer than anything picked |
| ArchiveRules.PickNewestPicks | RenameZip7Z.py:179-190 | the pick has min(limit, n) items (all without a limit), drawn from the input, newest first, and no item left out is newer than a picked one |
| ArchiveRules.NameBeforeTotal | RenameZip7Z.py:149 | code-point order on names is total |
| ArchiveRules.NameBeforeTransitive | RenameZip7Z.py:149 | code-point order on names is transitive |
| ArchiveRules.ZipOrSevenZip | RenameZip7Z.py:174 | no name ends in both `.zip` and `.7z` |
| ArchiveRules.ByNameOrders | RenameZip7Z.py:149 | name order on folder entries is total and transitive |
| ArchiveRules.SortedArchivesSpec | RenameZip7Z.py:149-150 | the archive list holds exactly the folder's `.zip`/`.7z` entries (any case), in name order |
| ArchiveRules.ListArchivesSpec | RenameZip7Z.py:149-159 | the archives processed are exactly those entries, less the `.7z` ones when py7zr is missing, in name order |
| ArchiveRules.ListArchivesWarns | RenameZip7Z.py:155-158 | the "7z not available" warning is shown exactly when py7zr is missing and the folder holds a `.7z` archive |
| ArchiveRules.FilterOrdered | RenameZip7Z.py:159 | dropping the `.7z` archives keeps the name order |
| ArchiveRules.MulLe | RenameZip7Z.py:182-187 | multiplying both sides of an inequality by a natural number keeps it |
| ArchiveRules.Digit | RenameZip7Z.py:182-187 | in a mixed-radix number the higher place decides first |
| ArchiveRules.InstantOrder | RenameZip7Z.py:182-189 | for timestamps `datetime` accepts, the sort key orders them as `datetime` compares them |
| ArchiveRules.BadStampOldest | RenameZip7Z.py:186-187 | a member whose timestamp `datetime` rejects sorts as old as any other member |
| ArchiveRules.Unpacked | RenameZip7Z.py:231-244 | unpacking yields one file per non-directory member, a directory being a member whose path ends in a separator |
| ArchiveRules.DestNameJoins | RenameZip7Z.py:201-202 | the output name is the archive prefix, `_` and the cleaned member name, unless the cleaned member name ends in whitespace |
| ArchiveRules.NoClobberAdd | RenameZip7Z.py:203-211 | a copy to a name not in the folder keeps every copy on a fresh name of its own |
| ArchiveRules.CopyStepKeeps | RenameZip7Z.py:195-219 | one round of the copy loop reads the flag once, overwrites nothing, and appends at most one copy |
| ArchiveRules.CopyRunKeeps | RenameZip7Z.py:195-219 | the copy loop never overwrites a file, copies at most one file per picked member, and only appends to the copies made |
| ArchiveRules.CancelledCopiesNothing | RenameZip7Z.py:196-197 | a cancel seen at the first read stops the copy loop before anything is copied |
| ArchiveRules.CopyRunSnoc | RenameZip7Z.py:195-219 | one more member extends the loop by one round unless it had stopped |
| ArchiveRules.CopyMember | RenameZip7Z.py:196-219 | one round of the loop: stop on the flag, skip an empty base name, copy to a free name, or end the archive on a failed copy |
| ArchiveRules.CopyFile | RenameZip7Z.py:206-219 | a member that copies takes the free name and adds its copy; a failed copy ends the archive without taking a name |
| ArchiveRules.CopyMembers | RenameZip7Z.py:195-219 | the loop over the picked members produces the specified run |
| ArchiveRules.StoppedStays | RenameZip7Z.py:197-219 | once the loop has stopped, the remaining members change nothing |
| ArchiveRules.ArchiveStepKeeps | RenameZip7Z.py:168-279 | one archive overwrites nothing and only appends copies |
| ArchiveRules.ArchiveRunKeeps | RenameZip7Z.py:168-279 | the archive loop never overwrites a file and only appends copies |
| ArchiveRules.CancelledAtOnce | RenameZip7Z.py:168-170 | a cancel seen at the first read copies nothing and reports no error |
| ArchiveRules.ArchiveRunSnoc | RenameZip7Z.py:168-279 | one more archive extends the loop by one round unless it was cancelled |
| ArchiveRules.ArchiveRunStopped | RenameZip7Z.py:169-170 | once cancelled, the remaining archives change nothing |
| ArchiveRules.ProcessArchive | RenameZip7Z.py:169-279 | one archive: stop on the flag; an archive that cannot be opened adds its name to the errors; otherwise its picked members are copied and a failed copy adds its name |
| ArchiveRules.ProcessArchives | RenameZip7Z.py:168-279 | the archive loop produces the specified run |
| ArchiveRules.RunJobsNoClobber | RenameZip7Z.py:168-297 | no copy lands on a name that was in the output folder, no two copies share a name (names compared exactly), and the folder ends up holding every copy |
| ArchiveRules.RunJobsCancelled | RenameZip7Z.py:165-167 | a run whose first read sees the flag set copies nothing, reports no error and ends "Cancelled" |
| ArchiveRules.RunArchives | RenameZip7Z.py:168-297 | the archive loop with the final status: cancelled, done with errors, or done |
| RenameZip7Z.Jobs | RenameZip7Z.py:165-172 | one job per archive, in the order of the list, each picking as `JobFor` demands of its archive |
| RenameZip7Z.JobOf | RenameZip7Z.py:172-271 | a `.zip` job opens when the archive is readable and picks the newest file members by ZIP timestamp; a `.7z` job opens only with py7zr, reads the flag once per unpacked file and picks the newest unpacked files by modification time; both are named after the archive |
| RenameZip7Z.JobPicksNewest | RenameZip7Z.py:179-190 | a ZIP archive copies min(limit, files) members, newest first, none older than a member passed over |
| RenameZip7Z.ExtractNoClobber | RenameZip7Z.py:137-297 | a run never overwrites a file in the output folder, nor one it wrote itself |
| RenameZip7Z.OnlySevenZipWithoutPy7zr | RenameZip7Z.py:155-159 | a folder of only `.7z` archives without py7zr warns and ends "Done" without copying anything |
| RenameZip7Z.Extractor.constructor | RenameZip7Z.py:37 | a new window has the flag clear and no worker |
| RenameZip7Z.Extractor.Start | RenameZip7Z.py:109-117 | a start while a worker is alive is ignored; otherwise the flag is cleared and a worker starts |
| RenameZip7Z.Extractor.RequestCancel | RenameZip7Z.py:119-121 | a cancel request sets the flag and nothing else |
| RenameZip7Z.Extractor.ExtractAndRename | RenameZip7Z.py:137-297 | the worker's report is the run on the inputs with the flag as it was at start plus later requests; the worker then ends |
| RenameZip7Z.CancelBeforeRun | RenameZip7Z.py:165-167 | a cancel requested before the worker's first read copies nothing |
| RenameZipDate.ParseDate | RenameZipDate.py:254-260 | a date is returned only when `datetime.date` accepts it |
| RenameZipDate.IsoText | RenameZipDate.py:21 | the zero-padded text is ten characters long |
| RenameZipDate.DigitCharValue | RenameZipDate.py:47 | the digit character of k is an ASCII and decimal digit of value k |
| RenameZipDate.YearDigits | RenameZipDate.py:47 | a year below 10000 is the value of its four digits |
| RenameZipDate.IsoYear | RenameZipDate.py:47 | the first four characters of the padded text read back as the year |
| RenameZipDate.IsoShaped | RenameZipDate.py:21 | a zero-padded text has the shape `DATE_REGEX` looks for |
| RenameZipDate.IsoMonth | RenameZipDate.py:47 | the two-digit month field matches `%m` exactly for months 1 to 12, with that value |
| RenameZipDate.IsoDay | RenameZipDate.py:47 | the two-digit day field is read in full exactly for days 1 to 31, with that value |
| RenameZipDate.ParseIsoText | RenameZipDate.py:256-258 | a zero-padded `YYYY-MM-DD` text parses exactly when the numbers make a valid date (month 13, day 32, 29 February of a common year and year 0 are refused) |
| RenameZipDate.ParseIsoDate | RenameZipDate.py:256-258 | a printed date parses back to itself |
| RenameZipDate.ShortFieldsAccepted | RenameZipDate.py:256-258 | a one-digit month and day, as in `2024-1-5`, are accepted by the date fields |
| RenameZipDate.FirstDateAt | RenameZipDate.py:43 | the search returns the leftmost position where the pattern matches, or none when it matches nowhere |
| RenameZipDate.ExtractDateFirst | RenameZipDate.py:42-49 | only the leftmost match is parsed |
| RenameZipDate.DateInName | RenameZipDate.py:42-49 | a name carrying a printed date, with no digit before it, yields that date |
| RenameZipDate.LaterDateIgnored | RenameZipDate.py:42-49 | when the first `dddd-dd-dd` is not a valid date the name has no date, even if a valid one follows |
| RenameZipDate.LaterDateIgnoredExample | RenameZipDate.py:42-49 | `2023-02-30_` followed by a valid date has no date |
| RenameZipDate.ParseRange | RenameZipDate.py:250-263 | a range that is returned always has at least one bound |
| RenameZipDate.ParseRangeOfEntries | RenameZipDate.py:250-263 | entries holding printed dates or nothing read back as those bounds; two blank entries are refused |
| RenameZipDate.StripIso | RenameZipDate.py:251-252 | a printed date is unchanged by `strip()` |
| RenameZipDate.BoundsIncluded | RenameZipDate.py:265-275 | a name whose date equals both bounds is in range: both bounds are included |
| RenameZipDate.InvertedRangeEmpty | RenameZipDate.py:250-275 | a start after the end selects nothing, since the range is not checked for order |
| RenameZipDate.InRangeSpec | RenameZipDate.py:265-275 | a name is in range exactly when it carries a date not before the start and not after the end, bounds that are unset being ignored |
| RenameZipDate.Jobs | RenameZipDate.py:315-334 | one job per archive, in the order of the list, each picking as `JobFor` demands of its archive and the mode |
| RenameZipDate.JobOf | RenameZipDate.py:359-453 | a job picks among the file members (`.zip`) or the unpacked files (`.7z`): the newest by ZIP timestamp or modification time in "recent" mode, exactly those whose path carries a date in range, each once and in archive order, in date mode; a `.7z` job opens only with py7zr |
| RenameZipDate.DatedPicksInRange | RenameZipDate.py:381-385 | in date mode a ZIP archive picks exactly its file members whose full path carries a date in range, each once and in archive order |
| RenameZipDate.InRangeMembersPicks | RenameZipDate.py:381-393 | the date-mode pick holds exactly the files whose path carries a date in range, each at its own position among the files, in the order of the files |
| RenameZipDate.BlankDatesRefused | RenameZipDate.py:261-262 | two blank date fields are refused before the folders are looked at |
| RenameZipDate.ExtractNoClobber | RenameZipDate.py:277-356 | a run never overwrites a file in the output folder, nor one it wrote itself |
| RenameZipDate.CancelBeforeRun | RenameZipDate.py:315-317 | a cancel requested before the worker's first read copies nothing |
| RenameZipDate.Extractor.constructor | RenameZipDate.py:53 | a new window has the flag clear and no worker |
| RenameZipDate.Extractor.Start | RenameZipDate.py:222-231 | a start while a worker is alive is ignored; otherwise the flag is cleared and a worker starts |
| RenameZipDate.Extractor.RequestCancel | RenameZipDate.py:233-235 | a cancel request sets the flag and nothing else |
| RenameZipDate.Extractor.ExtractAndRename | RenameZipDate.py:277-356 | the worker's report is the run on the mode and inputs with the flag as it was at start plus later requests; the worker then ends |
| PyInt.DecimalValue | RenameZip7Z.py:131 | the value of a decimal digit is below ten |
| PyInt.DigitValue | RenameZip7Z.py:131 | the value of any `isdigit()` character is below ten |
| PyInt.ParseIntAccepts | Cmdv4TraceViewer.py:123-127 | `int()` accepts exactly a stripped text that is an optional sign followed by a run of digits and single underscores |
| PyInt.ParseIntOfNatToString | Cmdv4TraceViewer.py:123-127 | `int(str(n)) == n` |
| PyInt.ParseIntOfNegated | RenameZip7Z.py:132-133 | `int("-" + str(n)) == -n` |
| PyInt.NegatedRun | RenameZip7Z.py:132-133 | a minus sign before ASCII digits reads as the negated value |
| PyInt.NormalizeDigits | RenameZip7Z.py:131 | every `isdigit()` character becomes the ASCII digit of its value; other characters are kept, position by position |
| PyText.LStripSpec | RenameZip7Z.py:22 | `lstrip` gives the longest suffix not starting with a stripped character |
| PyText.RStripSpec | RenameZip7Z.py:22 | `rstrip` gives the longest prefix not ending with a stripped character |
| PyText.StripEnds | RenameZip7Z.py:22 | a stripped text is empty or starts and ends with non-whitespace |
| PyText.Split | Cmdv4TraceViewer.py:63 | a split gives at least one piece |
| PyText.SplitJoin | Cmdv4TraceViewer.py:63 | joining the pieces with the separator gives the text back |
| PyText.SplitPiecesFree | Cmdv4TraceViewer.py:63 | no piece contains the separator |
| PyText.SplitOfJoin | Cmdv4TraceViewer.py:63 | splitting a join of separator-free pieces gives the pieces back |
| PyText.IndexOf | Cmdv4TraceViewer.py:57 | the index is the first occurrence of the character, or the length when there is none |
| PyText.ReplaceCharRemoves | Serch5line.py:52 | replacing a character by a text without it leaves no occurrence |
| PyText.NatToString | FolderSerach.py:27 | `str(n)` is a non-empty run of ASCII digits with no leading zero unless n is 0 |
| PyText.NatToStringRoundTrip | FolderSerach.py:27 | `str(n)` reads back as n |
| PyText.NatToStringInjective | Cmdv4TraceViewer.py:85 | different numbers have different renderings |
| PyText.UpperOfLower | Cmdv4TraceViewer.py:109-110 | upper-casing forgets an earlier lower-casing |
| Seqs.FilterMembership | Cmdv4TraceViewer.py:435-445 | an element is kept exactly when it occurs in the input and passes the test |
| Seqs.FilterAppend | Cmdv4TraceViewer.py:435-445 | filtering distributes over concatenation |
| Seqs.CountPositive | RenameZip7Z.py:155 | something is counted exactly when some element passes |
| Seqs.Take | RenameZip7Z.py:190 | `s[:n]` is a prefix of length min(n, len(s)) |
| PyPath.BasenameShape | RenameZip7Z.py:198 | `os.path.basename` gives the separator-free tail of the path |
| PyPath.SplitExt | RenameZip7Z.py:28 | `os.path.splitext` splits the path into two parts that join back to it, the second empty or a dot followed by no dot and no separator |

## Left out

- Window code: widgets, dialogs, progress bars, status texts, the UI queue and keyword highlighting are not modelled; only the values they show are.
- Threads: each worker is one sequential run; the other thread appears only through the `Stop` value and the extractor's `Start`/`RequestCancel`.
- File system and archive libraries: `os.walk`, `open`, `zipfile`, `py7zr`, `tempfile.mkstemp`, `os.replace` and `os.path.exists` are inputs (entries, line sequences with an optional failure, member lists, the set of names present); their own behaviour is not modelled.
- Walk order: the model takes the order the walk yields as given; the source does not sort it either.
- Character decoding: chardet's guess and the decoders are inputs; a file is modelled as the lines it decodes to.
- Timestamps below a second: modification times are whole numbers.
- Letter case: `lower()`, `upper()` and the case-insensitive tests fold ASCII letters only.
- Whitespace: `strip()` uses Python's whitespace set, including NBSP and the other Unicode spaces.
- Digits: the digit classes cover ASCII, Arabic-Indic, Extended Arabic-Indic, Devanagari, Bengali, Thai and Lao digits, fullwidth digits, and the superscript and subscript digits; other scripts' digits are not recognised.
- Output texts: CSV quoting, the Excel export, error-message wording (an error row carries the archive name or an error text given as input) and the `by_cassette` summary text are not modelled.
- Persistence: the keyword-history and preferences JSON files are not read or written (`RenameZipDate.py` saves its preferences when a run starts).
- XML: `ET.iterparse` is not modelled; the trace viewer and reporter take the elements it yields as input.
- Sorting and text in the trace viewer: the column sort with its float coercion and the text `_describe_key` formats are not modelled; `TraceParse.Describe` returns the parts that text is made of.
- text_search_app.py as written: line 13 calls a misspelled `tlogging`, so the module fails when it is loaded; and `os`, which it never imports, is used inside `search_files` (line 242), so a search would fail at run time. The model describes the search it would run once both are fixed, and catches only the read errors that search catches.
- Other tools: `RenameZip.py` and `TextCounter.py` are not part of this model.
- CSV header rows: they appear only as the `Header` constants of the tools that write them.
- ArchiveRules.PickNewestSpec: does not state that members with equal timestamps keep their archive order, although `list.sort` is stable and so is `SortBy`.
- ArchiveRules.ProcessArchive: the reads of the cancel flag after it is seen set are not counted one by one. The run ends at the first read that sees it, which is all the stickiness of `threading.Event` allows to differ.
- ArchiveRules.UniqueNameSpec: the output folder is a set of names compared exactly. On Windows, which both extractors target, `os.path.exists` ignores letter case, so `unique_path` also passes over a name that differs from a present one only in case; the model would choose that name. `ArchiveRules.RunJobsNoClobber` therefore promises no overwrite only for names that are equal, not for names equal up to case.
- ArchiveRules.Unpacked: a member is a directory only when its path ends in a separator. That is how ZIP lists directories. py7zr lists them without one, so the members of a `.7z` archive are taken as input with their directories marked that way.
- PyInt.ParseIntAccepts: digit runs of any length are accepted. CPython 3.11 and later raise `ValueError` for a number of more than 4300 digits, which `parse_limit` would report as invalid.
- PyPath.BasenameShape: only `/` and `\` separate names. On Windows `ntpath.basename` also splits after a drive, so `C:x` gives `x`; the model gives `C:x`. Drive-relative names like that are outside the model.
- RenameZip7Z.JobOf: while a `.7z` archive's unpacked files are collected, a cancel ends the run at once. The source breaks out of only the inner loop; the copy loop and then the archive loop read the still-set flag and stop before copying anything, so the copies and errors are the same.

## Findings

| source | as written | input that shows it | evidently intended | confidence | as-written member | corrected member |
|---|---|---|---|---|---|---|
| text_search_app.py:313 | `total > len(preview)` compares the count with the whole preview list, which holds every row, so the "Showing first 1000 of N results" note never appears | a search with 1001 matching lines: 1001 rows, 1000 displayed, no note | compare with the 1000 rows actually displayed | not executed | TextSearch.NoteNeverShown | TextSearch.NoteDueWhenCut |
