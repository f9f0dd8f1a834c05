/** RenameZip7Z.py: extracts the newest members of every `.zip`/`.7z`
    archive in a folder into an output folder, each renamed with its archive's
    name as a prefix. */
module RenameZip7Z {
  import opened Opt
  import opened Seqs
  import opened Matching
  import opened ArchiveRules

  /** What the job for archive `s` must be: named after the archive; a `.zip`
      archive opens when it is readable, reads no cancel flag while its members are
      collected, and picks the newest file members by ZIP timestamp; a `.7z` archive
      opens only with py7zr, reads the flag once per unpacked file, and picks the
      newest unpacked files by modification time. */
  ghost predicate JobFor(s: Stored, limit: Limit, sevenZip: bool, j: Job) {
    j.archive == s.name && j.prefix == ArchivePrefix(s.name)
    && (IsZip(s.name) ==>
          j.opens == s.readable && j.scans == 0
          && NewestPick(ZipFiles(s.members), ZipKey, limit, j.picked))
    && (!IsZip(s.name) ==>
          j.opens == (sevenZip && s.readable) && j.scans == |ZipFiles(s.members)|
          && NewestPick(Unpacked(s.members), MTimeKey, limit, j.picked))
  }

  /** The work for one archive: a `.zip` archive copies its newest file members
      by ZIP timestamp; a `.7z` archive is unpacked, each unpacked file costs one
      read of the cancel flag while it is collected, and the newest by
      modification time are copied. Without py7zr a `.7z` archive fails. */
  function JobOf(s: Stored, limit: Limit, sevenZip: bool): (j: Job)
    ensures JobFor(s, limit, sevenZip, j)
  {
    if IsZip(s.name) then
      PickNewestPicks(ZipFiles(s.members), ZipKey, limit);
      Job(s.name, ArchivePrefix(s.name), s.readable, 0, PickNewest(ZipFiles(s.members), ZipKey, limit))
    else
      var files := Unpacked(s.members);
      PickNewestPicks(files, MTimeKey, limit);
      Job(s.name, ArchivePrefix(s.name), sevenZip && s.readable, |files|, PickNewest(files, MTimeKey, limit))
  }

  /** One job per archive, in the order of the list, each as `JobFor` demands. */
  function Jobs(archives: seq<Stored>, limit: Limit, sevenZip: bool): (r: seq<Job>)
    ensures |r| == |archives|
    ensures forall k :: 0 <= k < |archives| ==> r[k] == JobOf(archives[k], limit, sevenZip)
    ensures forall k :: 0 <= k < |archives| ==> JobFor(archives[k], limit, sevenZip, r[k])
  {
    seq(|archives|, k requires 0 <= k < |archives| => JobOf(archives[k], limit, sevenZip))
  }

  /** `extract_and_rename`, given the text of the limit field, whether both
      folders exist, the archive folder's entries, whether py7zr is installed,
      the names already in the output folder, and the cancel requests. */
  function Extract(limitText: string, foldersOk: bool, folder: seq<Stored>, sevenZip: bool,
                   output: set<string>, stop: Stop): Report
  {
    var limit := ParseLimit(limitText);
    if limit.Unparsable? then Refused(BadLimit)
    else if !foldersOk then Refused(BadFolders)
    else if SortedArchives(folder) == [] then NoArchives
    else
      var l := ListArchives(folder, sevenZip);
      RunJobs(l.warned, Jobs(l.archives, limit, sevenZip), output, stop)
  }

  /** Every archive copies at most `limit` files, and only its picked members:
      the newest ones, in newest-first order. */
  lemma JobPicksNewest(s: Stored, n: nat, sevenZip: bool)
    requires IsZip(s.name)
    ensures var j := JobOf(s, Newest(n), sevenZip);
      |j.picked| == Min(n, |ZipFiles(s.members)|)
      && forall a, b :: 0 <= a < b < |j.picked| ==> ZipKey(j.picked[a]) >= ZipKey(j.picked[b])
    ensures var j := JobOf(s, Newest(n), sevenZip);
      var rest := PassedOver(ZipFiles(s.members), ZipKey, Newest(n));
      forall a, b :: 0 <= a < |j.picked| && 0 <= b < |rest| ==> ZipKey(j.picked[a]) >= ZipKey(rest[b])
  {
    PickNewestSpec(ZipFiles(s.members), ZipKey, Newest(n));
  }

  /** A run never overwrites a file in the output folder, nor one it wrote
      itself. */
  lemma ExtractNoClobber(limitText: string, foldersOk: bool, folder: seq<Stored>, sevenZip: bool,
                         output: set<string>, stop: Stop)
    ensures var r := Extract(limitText, foldersOk, folder, sevenZip, output, stop);
      r.Finished? ==> NoClobber(output, r.output, r.copies)
  {
    var limit := ParseLimit(limitText);
    if !limit.Unparsable? && foldersOk && SortedArchives(folder) != [] {
      var l := ListArchives(folder, sevenZip);
      RunJobsNoClobber(l.warned, Jobs(l.archives, limit, sevenZip), output, stop);
    }
  }

  /** A folder whose only archives are `.7z` ones, without py7zr, warns and ends
      "Done" without copying anything. */
  lemma OnlySevenZipWithoutPy7zr(limitText: string, folder: seq<Stored>, output: set<string>, stop: Stop)
    requires !ParseLimit(limitText).Unparsable? && stop == Never
    requires forall k :: 0 <= k < |folder| ==> IsSevenZip(folder[k].name)
    requires |folder| > 0
    ensures var r := Extract(limitText, true, folder, false, output, stop);
      r == Finished(true, [], [], Done, output)
  {
    var all := SortedArchives(folder);
    SortedArchivesSpec(folder, folder[0]);
    assert all != [];
    ListArchivesWarns(folder, false);
    forall k | 0 <= k < |all|
      ensures !IsZipStored(all[k])
    {
      SortedArchivesSpec(folder, all[k]);
      var j :| 0 <= j < |folder| && folder[j] == all[k];
      ZipOrSevenZip(all[k].name);
    }
    FilterNone(all, IsZipStored);
  }

  /** The extractor window's run state: `_cancel` and whether the `_worker`
      thread is alive. */
  class Extractor {
    var cancel: bool
    var workerAlive: bool

    constructor ()
      ensures !cancel && !workerAlive
    {
      cancel := false;
      workerAlive := false;
    }

    /** `start_extract_thread`: ignored while a worker is alive; otherwise clears
        the cancel flag and starts a worker. */
    method Start() returns (started: bool)
      modifies this
      ensures started <==> !old(workerAlive)
      ensures started ==> !cancel && workerAlive
      ensures !started ==> cancel == old(cancel) && workerAlive
    {
      if workerAlive {
        return false;
      }
      cancel := false;
      workerAlive := true;
      started := true;
    }

    /** `request_cancel`. */
    method RequestCancel()
      modifies this
      ensures cancel && workerAlive == old(workerAlive)
    {
      cancel := true;
    }

    /** The worker's `extract_and_rename`; cancel requests made while it runs are
        `stop`, and the thread ends with it. */
    method ExtractAndRename(limitText: string, foldersOk: bool, folder: seq<Stored>, sevenZip: bool,
                            output: set<string>, stop: Stop) returns (r: Report)
      modifies this
      ensures r == Extract(limitText, foldersOk, folder, sevenZip, output, Effective(old(cancel), stop))
      ensures !workerAlive && cancel == old(cancel)
    {
      var flag := Effective(cancel, stop);
      workerAlive := false;
      var limit := ParseLimit(limitText);
      if limit.Unparsable? {
        return Refused(BadLimit);
      }
      if !foldersOk {
        return Refused(BadFolders);
      }
      if SortedArchives(folder) == [] {
        return NoArchives;
      }
      var l := ListArchives(folder, sevenZip);
      r := RunArchives(l.warned, Jobs(l.archives, limit, sevenZip), output, flag);
    }
  }

  /** A cancel requested before the worker reads the flag copies nothing. */
  lemma CancelBeforeRun(limitText: string, foldersOk: bool, folder: seq<Stored>, sevenZip: bool,
                        output: set<string>, stop: Stop)
    ensures var r := Extract(limitText, foldersOk, folder, sevenZip, output, Effective(true, stop));
      r.Finished? ==> r.copies == [] && r.errors == [] && r.status == Cancelled
  {
    var limit := ParseLimit(limitText);
    if !limit.Unparsable? && foldersOk && SortedArchives(folder) != [] {
      var l := ListArchives(folder, sevenZip);
      RunJobsCancelled(l.warned, Jobs(l.archives, limit, sevenZip), output);
    }
  }
}
