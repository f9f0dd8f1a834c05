/** RenameZipDate.py: the archive extractor with two modes, the newest `limit`
    members of each archive, or the members whose name carries a `YYYY-MM-DD`
    date inside a range. */
module RenameZipDate {
  import opened Opt
  import opened PyText
  import opened PyInt
  import opened Seqs
  import opened Matching
  import opened ArchiveRules

  // ---------------------------------------------------------------------------
  // datetime.strptime(text, "%Y-%m-%d")

  predicate Ascii(c: char) {
    '0' <= c <= '9'
  }

  function AsciiValue(c: char): nat
    requires Ascii(c)
  {
    c as int - '0' as int
  }

  /** `%Y` is four decimal digits of any script, read by `int()`. */
  function YearValue(s: string): nat
    requires |s| >= 4 && IsDecimal(s[0]) && IsDecimal(s[1]) && IsDecimal(s[2]) && IsDecimal(s[3])
  {
    1000 * DecimalValue(s[0]) + 100 * DecimalValue(s[1]) + 10 * DecimalValue(s[2]) + DecimalValue(s[3])
  }

  /** Length of the `%m` group `1[0-2]|0[1-9]|[1-9]` at the start of `t` when the
      `-` after it follows (0 when the pattern cannot match). */
  function MonthLength(t: string): nat {
    if |t| >= 3 && ((t[0] == '1' && '0' <= t[1] <= '2') || (t[0] == '0' && '1' <= t[1] <= '9')) && t[2] == '-' then 2
    else if |t| >= 2 && '1' <= t[0] <= '9' && t[1] == '-' then 1
    else 0
  }

  function MonthValue(t: string, n: nat): nat
    requires 1 <= n <= 2 && n <= |t| && forall k :: 0 <= k < n ==> Ascii(t[k])
  {
    if n == 1 then AsciiValue(t[0]) else 10 * AsciiValue(t[0]) + AsciiValue(t[1])
  }

  /** Length of the first alternative of the `%d` group
      `3[01]|[12]\d|0[1-9]|[1-9]| [1-9]` that matches at the start of `d`
      (0 when none does). */
  function DayLength(d: string): nat {
    if |d| >= 2 && d[0] == '3' && (d[1] == '0' || d[1] == '1') then 2
    else if |d| >= 2 && (d[0] == '1' || d[0] == '2') && IsDecimal(d[1]) then 2
    else if |d| >= 2 && d[0] == '0' && '1' <= d[1] <= '9' then 2
    else if |d| >= 1 && '1' <= d[0] <= '9' then 1
    else if |d| >= 2 && d[0] == ' ' && '1' <= d[1] <= '9' then 2
    else 0
  }

  /** `int()` of the matched day text. */
  function DayValue(d: string, n: nat): nat
    requires 1 <= n <= |d| && n == DayLength(d)
  {
    if d[0] == ' ' then AsciiValue(d[1])
    else if n == 1 then AsciiValue(d[0])
    else 10 * AsciiValue(d[0]) + DecimalValue(d[1])
  }

  /** `datetime.strptime(s, "%Y-%m-%d").date()`, `None` where it raises
      `ValueError`: the text must match the directive pattern in full, and the
      numbers must make a date `datetime.date` accepts. */
  function ParseDate(s: string): (r: Option<Date>)
    ensures r.Some? ==> ValidDate(r.value)
  {
    if |s| < 5 || !(IsDecimal(s[0]) && IsDecimal(s[1]) && IsDecimal(s[2]) && IsDecimal(s[3])) || s[4] != '-' then None
    else
      var t := s[5..];
      var m := MonthLength(t);
      if m == 0 then None
      else
        var d := t[m + 1..];
        var n := DayLength(d);
        if n == 0 || n != |d| then None
        else
          var date := Date(YearValue(s), MonthValue(t, m), DayValue(d, n));
          if ValidDate(date) then Some(date) else None
  }

  function DigitChar(k: int): char
    requires 0 <= k <= 9
  {
    ('0' as int + k) as char
  }

  /** The text `YYYY-MM-DD` of three numbers, each zero-padded: for a valid
      date, the ISO 8601 extended calendar date (`date.isoformat()`). */
  function IsoText(y: int, m: int, d: int): (r: string)
    requires 0 <= y <= 9999 && 0 <= m <= 99 && 0 <= d <= 99
    ensures |r| == 10
  {
    [DigitChar(y / 1000), DigitChar(y % 1000 / 100), DigitChar(y % 100 / 10), DigitChar(y % 10), '-',
     DigitChar(m / 10), DigitChar(m % 10), '-', DigitChar(d / 10), DigitChar(d % 10)]
  }

  function IsoDate(d: Date): string
    requires ValidDate(d)
  {
    IsoText(d.year, d.month, d.day)
  }

  lemma DigitCharValue(k: int)
    requires 0 <= k <= 9
    ensures Ascii(DigitChar(k)) && IsDecimal(DigitChar(k))
    ensures AsciiValue(DigitChar(k)) == k && DecimalValue(DigitChar(k)) == k
  {
  }

  lemma YearDigits(y: int)
    requires 0 <= y <= 9999
    ensures 1000 * (y / 1000) + 100 * (y % 1000 / 100) + 10 * (y % 100 / 10) + y % 10 == y
  {
    var a, r := y / 1000, y % 1000;
    var b, r2 := r / 100, r % 100;
    var c, e := r2 / 10, r2 % 10;
    assert y == 1000 * a + r;
    assert r == 100 * b + r2;
    assert r2 == 10 * c + e;
    RemainderOf(y, 10 * a + b, r2, 100);
    RemainderOf(y, 100 * a + 10 * b + c, e, 10);
  }

  lemma RemainderOf(y: int, q: int, r: int, n: int)
    requires n == 10 || n == 100
    requires 0 <= r < n && y == n * q + r
    ensures y % n == r
  {
    if n == 10 {
      assert y == 10 * q + r;
    } else {
      assert y == 100 * q + r;
    }
  }

  lemma IsoYear(y: int, m: int, d: int)
    requires 0 <= y <= 9999 && 0 <= m <= 99 && 0 <= d <= 99
    ensures var s := IsoText(y, m, d);
      IsDecimal(s[0]) && IsDecimal(s[1]) && IsDecimal(s[2]) && IsDecimal(s[3]) && YearValue(s) == y
  {
    DigitCharValue(y / 1000);
    DigitCharValue(y % 1000 / 100);
    DigitCharValue(y % 100 / 10);
    DigitCharValue(y % 10);
    YearDigits(y);
  }

  /** A zero-padded text has the shape `DATE_REGEX` looks for. */
  lemma IsoShaped(y: int, m: int, d: int)
    requires 0 <= y <= 9999 && 0 <= m <= 99 && 0 <= d <= 99
    ensures DateShaped(IsoText(y, m, d), 0)
  {
    IsoYear(y, m, d);
    DigitCharValue(m / 10);
    DigitCharValue(m % 10);
    DigitCharValue(d / 10);
    DigitCharValue(d % 10);
  }

  /** The two-digit month text matches `%m` exactly for the months 1 to 12. */
  lemma IsoMonth(y: int, m: int, d: int)
    requires 0 <= y <= 9999 && 0 <= m <= 99 && 0 <= d <= 99
    ensures var t := IsoText(y, m, d)[5..];
      (MonthLength(t) != 0 <==> 1 <= m <= 12)
      && (1 <= m <= 12 ==> MonthLength(t) == 2 && MonthValue(t, 2) == m)
  {
    var t := IsoText(y, m, d)[5..];
    assert t[0] == DigitChar(m / 10) && t[1] == DigitChar(m % 10) && t[2] == '-';
    DigitCharValue(m / 10);
    DigitCharValue(m % 10);
  }

  /** The two-digit day text is read in full exactly for the days 1 to 31. */
  lemma IsoDay(y: int, m: int, d: int)
    requires 0 <= y <= 9999 && 0 <= m <= 99 && 0 <= d <= 99
    ensures var e := IsoText(y, m, d)[8..];
      (DayLength(e) == |e| <==> 1 <= d <= 31)
      && (1 <= d <= 31 ==> DayValue(e, 2) == d)
  {
    var e := IsoText(y, m, d)[8..];
    assert |e| == 2 && e[0] == DigitChar(d / 10) && e[1] == DigitChar(d % 10);
    DigitCharValue(d / 10);
    DigitCharValue(d % 10);
  }

  /** `strptime` on a zero-padded `YYYY-MM-DD` text gives the date exactly when
      the three numbers make a valid date: month 13, day 32, February 29 of a
      common year and year 0 are all refused. */
  lemma ParseIsoText(y: int, m: int, d: int)
    requires 0 <= y <= 9999 && 0 <= m <= 99 && 0 <= d <= 99
    ensures ParseDate(IsoText(y, m, d)) == if ValidDate(Date(y, m, d)) then Some(Date(y, m, d)) else None
  {
    var s := IsoText(y, m, d);
    IsoYear(y, m, d);
    IsoMonth(y, m, d);
    IsoDay(y, m, d);
    var t := s[5..];
    if MonthLength(t) != 0 {
      assert t[3..] == s[8..];
    }
  }

  /** Reading back a printed date gives the date. */
  lemma ParseIsoDate(d: Date)
    requires ValidDate(d)
    ensures ParseDate(IsoDate(d)) == Some(d)
  {
    ParseIsoText(d.year, d.month, d.day);
  }

  /** `strptime` also takes a one-digit month and day, as in `2024-1-5`. */
  lemma ShortFieldsAccepted(y: int, m: int, d: int)
    requires 1 <= y <= 9999 && 1 <= m <= 9 && 1 <= d <= 9
    ensures ParseDate(IsoText(y, 0, 0)[..5] + [DigitChar(m), '-', DigitChar(d)]) == Some(Date(y, m, d))
  {
    var s := IsoText(y, 0, 0)[..5] + [DigitChar(m), '-', DigitChar(d)];
    IsoYear(y, 0, 0);
    DigitCharValue(m);
    DigitCharValue(d);
    assert s[..5] == IsoText(y, 0, 0)[..5];
    assert forall k :: 0 <= k < 5 ==> s[k] == IsoText(y, 0, 0)[k];
    assert YearValue(s) == YearValue(IsoText(y, 0, 0));
    var t := s[5..];
    assert t == [DigitChar(m), '-', DigitChar(d)];
    assert MonthLength(t) == 1;
    assert t[2..] == [DigitChar(d)];
  }

  // ---------------------------------------------------------------------------
  // extract_date_from_name

  /** `DATE_REGEX` (`\d{4}-\d{2}-\d{2}`, `\d` any decimal digit) matches at `i`. */
  predicate DateShaped(s: string, i: nat) {
    i + 10 <= |s|
    && IsDecimal(s[i]) && IsDecimal(s[i + 1]) && IsDecimal(s[i + 2]) && IsDecimal(s[i + 3])
    && s[i + 4] == '-' && IsDecimal(s[i + 5]) && IsDecimal(s[i + 6])
    && s[i + 7] == '-' && IsDecimal(s[i + 8]) && IsDecimal(s[i + 9])
  }

  /** `DATE_REGEX.search(s)` from position `i`: the leftmost match. */
  function FirstDateAt(s: string, i: nat): (r: Option<nat>)
    ensures r.Some? ==> i <= r.value && DateShaped(s, r.value) && forall j :: i <= j < r.value ==> !DateShaped(s, j)
    ensures r.None? ==> forall j :: i <= j ==> !DateShaped(s, j)
    decreases |s| - i
  {
    if i + 10 > |s| then None
    else if DateShaped(s, i) then Some(i)
    else FirstDateAt(s, i + 1)
  }

  /** `extract_date_from_name`: the date of the first `dddd-dd-dd` in the name,
      `None` when there is none or when that one is not a valid date. */
  function ExtractDate(name: string): Option<Date> {
    match FirstDateAt(name, 0)
    case None => None
    case Some(i) => ParseDate(name[i..i + 10])
  }

  /** Only the leftmost match counts. */
  lemma ExtractDateFirst(name: string, i: nat)
    requires DateShaped(name, i) && forall j :: 0 <= j < i ==> !DateShaped(name, j)
    ensures ExtractDate(name) == ParseDate(name[i..i + 10])
  {
    var r := FirstDateAt(name, 0);
    assert r.Some?;
    assert r.value == i;
  }

  /** A name that carries a printed date, with no digit before it, yields that
      date. */
  lemma DateInName(pre: string, d: Date, post: string)
    requires ValidDate(d) && forall k :: 0 <= k < |pre| ==> !IsDecimal(pre[k])
    ensures ExtractDate(pre + IsoDate(d) + post) == Some(d)
  {
    var name := pre + IsoDate(d) + post;
    var i := |pre|;
    assert name[i..i + 10] == IsoDate(d);
    ParseIsoDate(d);
    IsoShaped(d.year, d.month, d.day);
    assert DateShaped(name, i);
    assert forall j :: 0 <= j < i ==> !DateShaped(name, j) by {
      assert forall j :: 0 <= j < i ==> name[j] == pre[j];
    }
    ExtractDateFirst(name, i);
  }

  /** When the first `dddd-dd-dd` is not a valid date the name has no date, even
      if a valid one follows. */
  lemma LaterDateIgnored(bad: string, post: string)
    requires |bad| == 10 && DateShaped(bad, 0) && ParseDate(bad).None?
    ensures ExtractDate(bad + post) == None
  {
    var name := bad + post;
    assert name[0..10] == bad;
    assert DateShaped(name, 0);
    ExtractDateFirst(name, 0);
  }

  /** For example `2023-02-30_2023-03-01` has no date. */
  lemma LaterDateIgnoredExample(d: Date)
    requires ValidDate(d)
    ensures ExtractDate(IsoText(2023, 2, 30) + "_" + IsoDate(d)) == None
  {
    var bad := IsoText(2023, 2, 30);
    var post := "_" + IsoDate(d);
    assert bad + "_" + IsoDate(d) == bad + post;
    IsoShaped(2023, 2, 30);
    ParseIsoText(2023, 2, 30);
    assert !ValidDate(Date(2023, 2, 30));
    LaterDateIgnored(bad, post);
  }

  // ---------------------------------------------------------------------------
  // parse_date_range and is_in_range

  /** What `parse_date_range` returns: `"invalid"`, `"empty"`, or the two bounds
      with `None` for a blank one. */
  datatype DateRange = Unreadable | Unset | Bounds(start: Option<Date>, end: Option<Date>)

  function ParseRange(startText: string, endText: string): (r: DateRange)
    ensures r.Bounds? ==> r.start.Some? || r.end.Some?
  {
    var s := Strip(startText);
    var e := Strip(endText);
    if (s != [] && ParseDate(s).None?) || (e != [] && ParseDate(e).None?) then Unreadable
    else if s == [] && e == [] then Unset
    else Bounds(if s == [] then None else ParseDate(s), if e == [] then None else ParseDate(e))
  }

  /** The text of an entry holding an optional date. */
  function Entry(b: Option<Date>): string
    requires b.Some? ==> ValidDate(b.value)
  {
    if b.Some? then IsoDate(b.value) else ""
  }

  /** Entries holding printed dates (or nothing) read back as those bounds; two
      blank entries are refused. */
  lemma ParseRangeOfEntries(a: Option<Date>, b: Option<Date>)
    requires a.Some? ==> ValidDate(a.value)
    requires b.Some? ==> ValidDate(b.value)
    ensures ParseRange(Entry(a), Entry(b)) == if a.None? && b.None? then Unset else Bounds(a, b)
  {
    EntryReadsBack(a);
    EntryReadsBack(b);
  }

  /** An entry's stripped text is blank exactly when it holds no date, and reads back
      as its date otherwise. */
  lemma EntryReadsBack(b: Option<Date>)
    requires b.Some? ==> ValidDate(b.value)
    ensures Strip(Entry(b)) == [] <==> b.None?
    ensures b.Some? ==> ParseDate(Strip(Entry(b))) == b
  {
    if b.Some? {
      StripIso(b.value);
      ParseIsoDate(b.value);
    }
  }

  lemma StripIso(d: Date)
    requires ValidDate(d)
    ensures Strip(IsoDate(d)) == IsoDate(d)
  {
    var s := IsoDate(d);
    StripTrimmed(s);
  }

  /** `is_in_range`: the name's date lies within the bounds, both included. */
  predicate InRange(name: string, start: Option<Date>, end: Option<Date>) {
    match ExtractDate(name)
    case None => false
    case Some(d) => !(start.Some? && Before(d, start.value)) && !(end.Some? && Before(end.value, d))
  }

  /** Both bounds are included. */
  lemma BoundsIncluded(name: string)
    requires ExtractDate(name).Some?
    ensures InRange(name, ExtractDate(name), ExtractDate(name))
  {
  }

  /** A start after the end selects nothing: the range is not checked for order. */
  lemma InvertedRangeEmpty(name: string, start: Date, end: Date)
    requires Before(end, start)
    ensures !InRange(name, Some(start), Some(end))
  {
  }

  /** A name is in range exactly when it has a date not before the start and not
      after the end. */
  lemma InRangeSpec(name: string, start: Option<Date>, end: Option<Date>)
    ensures InRange(name, start, end) <==>
      exists d :: ExtractDate(name) == Some(d)
        && (start.None? || !Before(d, start.value)) && (end.None? || !Before(end.value, d))
  {
    if InRange(name, start, end) {
      var d := ExtractDate(name).value;
      assert ExtractDate(name) == Some(d);
    }
  }

  // ---------------------------------------------------------------------------
  // extract_and_rename

  /** The mode radio button with the texts of its fields. */
  datatype Mode = Recent(limitText: string) | ByDate(startText: string, endText: string)

  /** How the members of every archive are picked once the fields are read. */
  datatype Pick = Latest(limit: Limit) | Dated(start: Option<Date>, end: Option<Date>)

  /** The members whose full path inside the archive carries a date in range. */
  function InRangeMembers(members: seq<Member>, start: Option<Date>, end: Option<Date>): seq<Member> {
    Filter(members, InRangeTest(start, end))
  }

  /** The test of `is_in_range` on a member's path. */
  function InRangeTest(start: Option<Date>, end: Option<Date>): Member -> bool {
    (m: Member) => InRange(m.path, start, end)
  }

  /** `r` is the date-mode pick among `files`: exactly the files whose path carries a
      date in range, each taken once, in the order of `files`. */
  ghost predicate DatedPick(files: seq<Member>, start: Option<Date>, end: Option<Date>, r: seq<Member>) {
    (exists idx :: KeptAt(files, InRangeTest(start, end), r, idx))
    && forall m :: m in r <==> m in files && InRange(m.path, start, end)
  }

  lemma InRangeMembersPicks(files: seq<Member>, start: Option<Date>, end: Option<Date>)
    ensures DatedPick(files, start, end, InRangeMembers(files, start, end))
  {
    var idx := FilterPositions(files, InRangeTest(start, end));
    forall m
      ensures m in InRangeMembers(files, start, end) <==> m in files && InRange(m.path, start, end)
    {
      FilterMembership(files, InRangeTest(start, end), m);
    }
  }

  /** How a pick chooses among `files` ordered by `key`. */
  ghost predicate Picks(files: seq<Member>, key: Member -> int, pick: Pick, r: seq<Member>) {
    match pick
    case Latest(limit) => NewestPick(files, key, limit, r)
    case Dated(a, b) => DatedPick(files, a, b, r)
  }

  /** What the job for archive `s` must be: named after the archive; a `.zip`
      archive opens when it is readable and picks among its file members by ZIP
      timestamp or by the date in their path; a `.7z` archive opens only with py7zr
      and picks among its unpacked files by modification time or by the date in their
      name. No cancel flag is read while the members are collected. */
  ghost predicate JobFor(s: Stored, pick: Pick, sevenZip: bool, j: Job) {
    j.archive == s.name && j.prefix == ArchivePrefix(s.name) && j.scans == 0
    && (IsZip(s.name) ==> j.opens == s.readable && Picks(ZipFiles(s.members), ZipKey, pick, j.picked))
    && (!IsZip(s.name) ==> j.opens == (sevenZip && s.readable) && Picks(Unpacked(s.members), MTimeKey, pick, j.picked))
  }

  /** The work for one archive: `_zip_extract_recent`/`_zip_extract_by_date` pick
      among the file members by ZIP timestamp or by the date in their path;
      `_7z_extract_recent`/`_7z_extract_by_date` unpack first and pick among the
      unpacked files by modification time or by the date in their name. */
  function JobOf(s: Stored, pick: Pick, sevenZip: bool): (j: Job)
    ensures JobFor(s, pick, sevenZip, j)
  {
    var files := if IsZip(s.name) then ZipFiles(s.members) else Unpacked(s.members);
    var key := if IsZip(s.name) then ZipKey else MTimeKey;
    var opens := if IsZip(s.name) then s.readable else sevenZip && s.readable;
    if pick.Latest? then
      PickNewestPicks(files, key, pick.limit);
      Job(s.name, ArchivePrefix(s.name), opens, 0, PickNewest(files, key, pick.limit))
    else
      InRangeMembersPicks(files, pick.start, pick.end);
      Job(s.name, ArchivePrefix(s.name), opens, 0, InRangeMembers(files, pick.start, pick.end))
  }

  /** One job per archive, in the order of the list, each as `JobFor` demands. */
  function Jobs(archives: seq<Stored>, pick: Pick, sevenZip: bool): (r: seq<Job>)
    ensures |r| == |archives|
    ensures forall k :: 0 <= k < |archives| ==> r[k] == JobOf(archives[k], pick, sevenZip)
    ensures forall k :: 0 <= k < |archives| ==> JobFor(archives[k], pick, sevenZip, r[k])
  {
    seq(|archives|, k requires 0 <= k < |archives| => JobOf(archives[k], pick, sevenZip))
  }

  /** The mode's fields as a pick, or the refusal they cause. */
  function PickOf(mode: Mode): Result {
    match mode
    case Recent(t) =>
      var limit := ParseLimit(t);
      if limit.Unparsable? then Refuse(BadLimit) else Use(Latest(limit))
    case ByDate(s, e) =>
      match ParseRange(s, e)
      case Unreadable => Refuse(BadDate)
      case Unset => Refuse(NoDate)
      case Bounds(a, b) => Use(Dated(a, b))
  }

  datatype Result = Refuse(why: Refusal) | Use(pick: Pick)

  /** `extract_and_rename`, given the mode and its fields, whether both folders
      exist, the archive folder's entries, whether py7zr is installed, the names
      already in the output folder, and the cancel requests. */
  function Extract(mode: Mode, foldersOk: bool, folder: seq<Stored>, sevenZip: bool,
                   output: set<string>, stop: Stop): Report
  {
    match PickOf(mode)
    case Refuse(why) => Refused(why)
    case Use(pick) =>
      if !foldersOk then Refused(BadFolders)
      else if SortedArchives(folder) == [] then NoArchives
      else
        var l := ListArchives(folder, sevenZip);
        RunJobs(l.warned, Jobs(l.archives, pick, sevenZip), output, stop)
  }

  /** In date mode a ZIP archive picks exactly its file members whose path
      carries a date in range, each once, in archive order. */
  lemma DatedPicksInRange(s: Stored, a: Option<Date>, b: Option<Date>, sevenZip: bool, m: Member)
    requires IsZip(s.name)
    ensures m in JobOf(s, Dated(a, b), sevenZip).picked <==> m in s.members && IsFileMember(m) && InRange(m.path, a, b)
    ensures exists idx :: KeptAt(ZipFiles(s.members), InRangeTest(a, b), JobOf(s, Dated(a, b), sevenZip).picked, idx)
  {
    FilterMembership(ZipFiles(s.members), InRangeTest(a, b), m);
    FilterMembership(s.members, IsFileMember, m);
  }

  /** Two blank date fields are refused before the folders are looked at. */
  lemma BlankDatesRefused(s: string, e: string, foldersOk: bool, folder: seq<Stored>, sevenZip: bool,
                          output: set<string>, stop: Stop)
    requires Strip(s) == [] && Strip(e) == []
    ensures Extract(ByDate(s, e), foldersOk, folder, sevenZip, output, stop) == Refused(NoDate)
  {
  }

  /** A run never overwrites a file in the output folder, nor one it wrote
      itself. */
  lemma ExtractNoClobber(mode: Mode, foldersOk: bool, folder: seq<Stored>, sevenZip: bool,
                         output: set<string>, stop: Stop)
    ensures var r := Extract(mode, foldersOk, folder, sevenZip, output, stop);
      r.Finished? ==> NoClobber(output, r.output, r.copies)
  {
    if PickOf(mode).Use? && foldersOk && SortedArchives(folder) != [] {
      var l := ListArchives(folder, sevenZip);
      RunJobsNoClobber(l.warned, Jobs(l.archives, PickOf(mode).pick, sevenZip), output, stop);
    }
  }

  /** A cancel requested before the worker reads the flag copies nothing. */
  lemma CancelBeforeRun(mode: Mode, foldersOk: bool, folder: seq<Stored>, sevenZip: bool,
                        output: set<string>, stop: Stop)
    ensures var r := Extract(mode, foldersOk, folder, sevenZip, output, Effective(true, stop));
      r.Finished? ==> r.copies == [] && r.errors == [] && r.status == Cancelled
  {
    if PickOf(mode).Use? && foldersOk && SortedArchives(folder) != [] {
      var l := ListArchives(folder, sevenZip);
      RunJobsCancelled(l.warned, Jobs(l.archives, PickOf(mode).pick, sevenZip), output);
    }
  }

  /** The extractor window's run state: `_cancel` and whether the `_worker`
      thread is alive. */
  class Extractor {
    var cancel: bool
    var workerAlive: bool

    constructor ()
      ensures !cancel && !workerAlive
    {
      cancel := false;
      workerAlive := false;
    }

    /** `start_extract_thread`: ignored while a worker is alive; otherwise clears
        the cancel flag and starts a worker. */
    method Start() returns (started: bool)
      modifies this
      ensures started <==> !old(workerAlive)
      ensures started ==> !cancel && workerAlive
      ensures !started ==> cancel == old(cancel) && workerAlive
    {
      if workerAlive {
        return false;
      }
      cancel := false;
      workerAlive := true;
      started := true;
    }

    /** `request_cancel`. */
    method RequestCancel()
      modifies this
      ensures cancel && workerAlive == old(workerAlive)
    {
      cancel := true;
    }

    /** The worker's `extract_and_rename`; cancel requests made while it runs are
        `stop`, and the thread ends with it. */
    method ExtractAndRename(mode: Mode, foldersOk: bool, folder: seq<Stored>, sevenZip: bool,
                            output: set<string>, stop: Stop) returns (r: Report)
      modifies this
      ensures r == Extract(mode, foldersOk, folder, sevenZip, output, Effective(old(cancel), stop))
      ensures !workerAlive && cancel == old(cancel)
    {
      var flag := Effective(cancel, stop);
      workerAlive := false;
      var pick := PickOf(mode);
      if pick.Refuse? {
        return Refused(pick.why);
      }
      if !foldersOk {
        return Refused(BadFolders);
      }
      if SortedArchives(folder) == [] {
        return NoArchives;
      }
      var l := ListArchives(folder, sevenZip);
      r := RunArchives(l.warned, Jobs(l.archives, pick.pick, sevenZip), output, flag);
    }
  }
}
