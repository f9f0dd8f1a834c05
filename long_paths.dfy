/** The Windows extended-length path rewrite (`safe_path`) of the folder-search tools.
    `onWindows` stands for `platform.system() == 'Windows'` and `abs` for the absolute form
    of the path (`os.path.abspath`, or `Path.resolve` in text_search_app.py), which the
    operating system supplies. */
module LongPaths {
  import opened PyText

  /** `\\?\` */
  const ExtendedPrefix: string := "\\\\?\\"
  /** `\\?\UNC\` */
  const UncPrefix: string := "\\\\?\\UNC\\"
  /** `\\`, the start of a UNC share path. */
  const UncStart: string := "\\\\"

  /** An absolute Windows path as `abspath` renders it: a drive path `X:...` or a UNC path
      `\\server\share...` with exactly two leading backslashes. */
  predicate IsAbsolute(abs: string) {
    (|abs| >= 2 && abs[1] == ':') || (|abs| >= 3 && StartsWith(abs, UncStart) && abs[2] != '\\' && abs[2] != '?')
  }

  /** `safe_path` of FolderSearchV6Zip.py, which also rewrites UNC paths. */
  function SafePathUnc(path: string, onWindows: bool, abs: string): (r: string)
    ensures !onWindows ==> r == path
    ensures onWindows ==> StartsWith(r, ExtendedPrefix)
    ensures onWindows && StartsWith(abs, ExtendedPrefix) ==> r == abs
  {
    if !onWindows then path
    else if StartsWith(abs, ExtendedPrefix) then abs
    else if StartsWith(abs, UncStart) then UncPrefix + LStrip(abs, AnyOf({'\\'}))
    else ExtendedPrefix + abs
  }

  /** `safe_path` of FolderSearchV5.py, FolderSearchV3.py and text_search_app.py: the
      `\\?\` prefix is added unless present; UNC paths get no special form. */
  function SafePathPlain(path: string, onWindows: bool, abs: string): (r: string)
    ensures !onWindows ==> r == path
    ensures onWindows ==> StartsWith(r, ExtendedPrefix) && (r == abs || r == ExtendedPrefix + abs)
  {
    if onWindows && !StartsWith(abs, ExtendedPrefix) then ExtendedPrefix + abs
    else if onWindows then abs
    else path
  }

  /** The ordinary path an extended-length path names. */
  function FromExtended(r: string): string {
    if StartsWith(r, UncPrefix) then UncStart + r[|UncPrefix|..]
    else if StartsWith(r, ExtendedPrefix) then r[|ExtendedPrefix|..]
    else r
  }

  /** The rewrite loses nothing: the absolute path is recovered from the result, for drive
      paths and for UNC paths alike. */
  lemma SafePathUncRecovers(path: string, abs: string)
    requires IsAbsolute(abs)
    ensures FromExtended(SafePathUnc(path, true, abs)) == abs
  {
    if StartsWith(abs, UncStart) {
      NotExtended(abs);
      StripTwoBackslashes(abs);
      UncRoundTrip(abs[2..]);
      assert abs == UncStart + abs[2..];
    } else {
      NotExtended(abs);
      DriveRoundTrip(abs);
    }
  }

  lemma NotExtended(abs: string)
    requires IsAbsolute(abs)
    ensures !StartsWith(abs, ExtendedPrefix)
  {
    assert ExtendedPrefix[1] == '\\' && ExtendedPrefix[2] == '?';
  }

  lemma StripTwoBackslashes(abs: string)
    requires |abs| >= 3 && StartsWith(abs, UncStart) && abs[2] != '\\'
    ensures LStrip(abs, AnyOf({'\\'})) == abs[2..]
  {
    assert abs[0] == '\\' && abs[1] == '\\';
    assert abs[1..][1..] == abs[2..];
    assert LStrip(abs, AnyOf({'\\'})) == LStrip(abs[1..], AnyOf({'\\'}));
    assert LStrip(abs[1..], AnyOf({'\\'})) == LStrip(abs[2..], AnyOf({'\\'}));
  }

  lemma UncRoundTrip(rest: string)
    ensures FromExtended(UncPrefix + rest) == UncStart + rest
  {
    assert StartsWith(UncPrefix + rest, UncPrefix);
    assert (UncPrefix + rest)[|UncPrefix|..] == rest;
  }

  lemma DriveRoundTrip(abs: string)
    requires |abs| >= 2 && abs[1] == ':'
    ensures FromExtended(ExtendedPrefix + abs) == abs
  {
    var r := ExtendedPrefix + abs;
    assert r[5] == ':';
    assert !StartsWith(r, UncPrefix) by {
      assert UncPrefix[5] == 'N';
    }
    assert StartsWith(r, ExtendedPrefix);
    assert r[|ExtendedPrefix|..] == abs;
  }

  /** Rewriting an already rewritten path changes nothing (the absolute form of an
      extended-length path is the path itself). */
  lemma SafePathUncIdempotent(path: string, abs: string)
    ensures var r := SafePathUnc(path, true, abs);
      SafePathUnc(r, true, r) == r
  {
  }

  /** The same for the variant without the UNC form. */
  lemma SafePathPlainIdempotent(path: string, abs: string)
    ensures var r := SafePathPlain(path, true, abs);
      SafePathPlain(r, true, r) == r
  {
  }

  /** For a drive path both variants agree; for a UNC share path they differ, the older
      variant producing `\\?\\\server\...` where the newer produces `\\?\UNC\server\...`. */
  lemma VariantsCompared(path: string, abs: string)
    requires IsAbsolute(abs)
    ensures !StartsWith(abs, UncStart) ==> SafePathUnc(path, true, abs) == SafePathPlain(path, true, abs)
    ensures StartsWith(abs, UncStart) ==> SafePathUnc(path, true, abs) != SafePathPlain(path, true, abs)
  {
    if StartsWith(abs, UncStart) {
      NotExtended(abs);
      var a := SafePathUnc(path, true, abs);
      var b := SafePathPlain(path, true, abs);
      assert a[4] == 'U';
      assert b[4] == '\\';
    } else {
      NotExtended(abs);
    }
  }
}
