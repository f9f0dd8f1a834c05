/** The naming and selection rules the two archive extractors share
    (RenameZipDate.py and RenameZip7Z.py define them identically): cleaning a
    name for Windows, finding a free output name, reading the "max recent files"
    field, listing the archives of a folder, picking the newest members, and
    the loop that copies the picked members into the output folder. */
module ArchiveRules {
  import opened Opt
  import opened PyText
  import opened PyInt
  import opened Seqs
  import opened PyPath
  import opened Matching

  // ---------------------------------------------------------------------------
  // sanitize_filename

  /** A character of the class `[<>:"/\\|?*\x00-\x1F]`. */
  predicate Invalid(c: char) {
    c == '<' || c == '>' || c == ':' || c == '"' || c == '/' || c == '\\'
    || c == '|' || c == '?' || c == '*' || c as int <= 0x1F
  }

  /** `re.sub(INVALID_WIN_CHARS, "_", name)`. */
  function ReplaceInvalid(name: string): (r: string)
    ensures |r| == |name|
  {
    seq(|name|, i requires 0 <= i < |name| => if Invalid(name[i]) then '_' else name[i])
  }

  /** The characters of `rstrip(". ")`. */
  const DotSpace: Chars := AnyOf({'.', ' '})

  const Unnamed: string := "unnamed"

  /** `sanitize_filename(name)`. */
  function Sanitize(name: string): (r: string)
    ensures |r| > 0
  {
    var t := RStrip(Strip(ReplaceInvalid(name)), DotSpace);
    if t == [] then Unnamed else t
  }

  /** A name `sanitize_filename` leaves as it is. */
  predicate Clean(s: string) {
    |s| > 0 && (forall i :: 0 <= i < |s| ==> !Invalid(s[i]))
    && !IsSpace(s[0]) && !IsSpace(s[|s| - 1]) && s[|s| - 1] != '.'
  }

  /** No character of the cleaned name is invalid. */
  lemma ReplacedValid(name: string)
    ensures forall i :: 0 <= i < |ReplaceInvalid(name)| ==> !Invalid(ReplaceInvalid(name)[i])
  {
  }

  /** The text left by `strip().rstrip(". ")` is a piece of its input that
      starts with no whitespace and ends with neither a dot nor a space. */
  lemma TrimShape(c: string)
    ensures var l := LStrip(c, Whitespace);
      var t := RStrip(RStrip(l, Whitespace), DotSpace);
      |t| <= |l| <= |c| && (forall i :: 0 <= i < |t| ==> t[i] == c[|c| - |l| + i])
      && (t != [] ==> !IsSpace(t[0]) && t[|t| - 1] != '.' && t[|t| - 1] != ' ')
  {
    var l := LStrip(c, Whitespace);
    var s := RStrip(l, Whitespace);
    var t := RStrip(s, DotSpace);
    LStripSpec(c, Whitespace);
    RStripSpec(l, Whitespace);
    RStripSpec(s, DotSpace);
    if t != [] {
      assert t[0] == l[0];
    }
  }

  /** What `sanitize_filename` guarantees: a non-empty name without invalid
      characters that starts with no whitespace and ends with neither a dot nor a
      space. */
  lemma SanitizeSpec(name: string)
    ensures var r := Sanitize(name);
      (forall i :: 0 <= i < |r| ==> !Invalid(r[i]))
      && !IsSpace(r[0]) && r[|r| - 1] != '.' && r[|r| - 1] != ' '
  {
    var c := ReplaceInvalid(name);
    TrimShape(c);
    ReplacedValid(name);
  }

  /** `r` is `c[lo..]` with leading whitespace cut and trailing whitespace, dots
      and spaces cut. */
  ghost predicate CutFrom(c: string, r: string, lo: nat) {
    lo + |r| <= |c| && r == c[lo..lo + |r|]
    && (forall i :: 0 <= i < lo ==> IsSpace(c[i]))
    && (forall i :: lo + |r| <= i < |c| ==> IsSpace(c[i]) || c[i] == '.')
  }

  /** The result is "unnamed" or what is left of the cleaned name once leading
      whitespace and trailing whitespace, dots and spaces are cut off. */
  lemma SanitizeCut(name: string)
    ensures Sanitize(name) == Unnamed || exists lo :: CutFrom(ReplaceInvalid(name), Sanitize(name), lo)
  {
    var c := ReplaceInvalid(name);
    if RStrip(Strip(c), DotSpace) != [] {
      TrimCut(c);
    }
  }

  /** Stripping whitespace, then trailing dots and spaces, cuts a text from the first
      character that is not whitespace. */
  lemma TrimCut(c: string)
    requires RStrip(Strip(c), DotSpace) != []
    ensures CutFrom(c, RStrip(Strip(c), DotSpace), |c| - |LStrip(c, Whitespace)|)
  {
    var l := LStrip(c, Whitespace);
    var s := RStrip(l, Whitespace);
    var t := RStrip(s, DotSpace);
    LStripSpec(c, Whitespace);
    RStripSpec(l, Whitespace);
    RStripSpec(s, DotSpace);
    var lo := |c| - |l|;
    TrimSlice(c, l, s, t, lo);
    TrimLead(c, lo);
    TrimTail(c, l, s, t, lo);
  }

  lemma TrimSlice(c: string, l: string, s: string, t: string, lo: nat)
    requires lo + |l| == |c| && l == c[lo..]
    requires |s| <= |l| && s == l[..|s|]
    requires |t| <= |s| && t == s[..|t|]
    ensures t == c[lo..lo + |t|]
  {
    forall k | 0 <= k < |t|
      ensures t[k] == c[lo + k]
    {
      assert t[k] == s[k] == l[k];
    }
  }

  lemma TrimLead(c: string, lo: nat)
    requires lo <= |c| && forall i :: 0 <= i < lo ==> In(c[i], Whitespace)
    ensures forall i :: 0 <= i < lo ==> IsSpace(c[i])
  {
  }

  lemma TrimTail(c: string, l: string, s: string, t: string, lo: nat)
    requires lo + |l| == |c| && l == c[lo..]
    requires |s| <= |l| && s == l[..|s|] && forall i :: |s| <= i < |l| ==> In(l[i], Whitespace)
    requires |t| <= |s| && t == s[..|t|] && forall i :: |t| <= i < |s| ==> In(s[i], DotSpace)
    ensures forall i :: lo + |t| <= i < |c| ==> IsSpace(c[i]) || c[i] == '.'
  {
    forall i | lo + |t| <= i < |c|
      ensures IsSpace(c[i]) || c[i] == '.'
    {
      assert c[i] == l[i - lo];
      if i - lo < |s| {
        assert In(s[i - lo], DotSpace);
      }
    }
  }

  /** A clean name is its own sanitized form. */
  lemma SanitizeFixes(s: string)
    requires Clean(s)
    ensures Sanitize(s) == s
  {
    assert ReplaceInvalid(s) == s;
    StripTrimmed(s);
  }

  /** Sanitizing twice changes nothing when the first result does not end in
      whitespace. */
  lemma SanitizeIdempotent(name: string)
    requires !IsSpace(Sanitize(name)[|Sanitize(name)| - 1])
    ensures Sanitize(Sanitize(name)) == Sanitize(name)
  {
    SanitizeSpec(name);
    SanitizeFixes(Sanitize(name));
  }

  /** Without that condition it does not hold: `rstrip(". ")` can uncover a
      trailing no-break space that the second `strip()` then removes. */
  lemma SanitizeNotIdempotent()
    ensures Sanitize("a\U{A0}.") == "a\U{A0}"
    ensures Sanitize("a\U{A0}") == "a"
  {
    var n := "a\U{A0}.";
    assert ReplaceInvalid(n) == n;
    assert LStrip(n, Whitespace) == n;
    assert RStrip(n, Whitespace) == n;
    assert RStrip(n, DotSpace) == "a\U{A0}" by {
      assert n[..2] == "a\U{A0}";
    }
    var m := "a\U{A0}";
    assert ReplaceInvalid(m) == m;
    assert LStrip(m, Whitespace) == m;
    assert RStrip(m, Whitespace) == "a" by {
      assert m[..1] == "a";
    }
  }

  // ---------------------------------------------------------------------------
  // unique_path

  /** The `f"{root} ({i}){ext}"` candidate for a taken `base`. */
  function Numbered(base: string, i: nat): string {
    SplitExt(base).0 + " (" + NatToString(i) + ")" + SplitExt(base).1
  }

  /** A digit string followed by `)` is told apart by where the `)` is. */
  lemma DigitsBeforeParen(a: string, b: string, x: string, y: string)
    requires forall k :: 0 <= k < |a| ==> '0' <= a[k] <= '9'
    requires forall k :: 0 <= k < |b| ==> '0' <= b[k] <= '9'
    requires a + ")" + x == b + ")" + y
    ensures a == b
  {
    var s := a + ")" + x;
    assert forall k :: 0 <= k < |a| ==> s[k] != ')';
    assert forall k :: 0 <= k < |b| ==> s[k] != ')';
    assert s[|a|] == ')';
    assert (b + ")" + y)[|b|] == ')';
    assert |a| == |b|;
    assert a == s[..|a|];
    assert b == s[..|b|];
  }

  /** Different counters give different candidates. */
  lemma NumberedInjective(base: string, i: nat, j: nat)
    ensures Numbered(base, i) == Numbered(base, j) ==> i == j
  {
    if Numbered(base, i) == Numbered(base, j) {
      var root := SplitExt(base).0;
      var ext := SplitExt(base).1;
      var s := Numbered(base, i);
      var p := |root| + 2;
      var a := NatToString(i);
      var b := NatToString(j);
      assert s[p..] == a + ")" + ext;
      assert Numbered(base, j)[p..] == b + ")" + ext;
      DigitsBeforeParen(a, b, ext, ext);
      NatToStringInjective(i, j);
    }
  }

  /** At most `|taken|` distinct candidates can all be taken. */
  lemma {:induction false} TakenBound(base: string, taken: set<string>, m: nat)
    ensures (forall j :: 1 <= j <= m ==> Numbered(base, j) in taken) ==> m <= |taken|
    decreases m
  {
    if m > 0 && forall j :: 1 <= j <= m ==> Numbered(base, j) in taken {
      var c := Numbered(base, m);
      var rest := taken - {c};
      forall j | 1 <= j <= m - 1
        ensures Numbered(base, j) in rest
      {
        NumberedInjective(base, j, m);
      }
      TakenBound(base, rest, m - 1);
    }
  }

  /** The counter `unique_path` stops at, searching upwards from `i`; the search
      cannot go past `|taken| + 1` (see `FreeIndexSpec`). */
  function FreeIndex(base: string, taken: set<string>, i: nat): nat
    decreases |taken| + 1 - i
  {
    if i > |taken| || Numbered(base, i) !in taken then i else FreeIndex(base, taken, i + 1)
  }

  /** From 1 the search stops at the least counter whose candidate is free. */
  lemma {:induction false} FreeIndexSpec(base: string, taken: set<string>, i: nat)
    requires i >= 1 && forall j :: 1 <= j < i ==> Numbered(base, j) in taken
    ensures var k := FreeIndex(base, taken, i);
      k >= i && Numbered(base, k) !in taken
      && forall j :: 1 <= j < k ==> Numbered(base, j) in taken
    decreases |taken| + 1 - i
  {
    if i <= |taken| && Numbered(base, i) in taken {
      FreeIndexSpec(base, taken, i + 1);
    } else if i > |taken| {
      TakenBound(base, taken, i);
    }
  }

  /** `unique_path(base)` when the output folder holds `taken`. */
  function UniqueName(base: string, taken: set<string>): string {
    if base !in taken then base else Numbered(base, FreeIndex(base, taken, 1))
  }

  /** `unique_path` never returns a taken name: the base when it is free, else the
      candidate with the least counter `i >= 1` that is free. */
  lemma UniqueNameSpec(base: string, taken: set<string>)
    ensures UniqueName(base, taken) !in taken
    ensures base !in taken ==> UniqueName(base, taken) == base
    ensures base in taken ==>
      exists k :: k >= 1 && UniqueName(base, taken) == Numbered(base, k)
        && forall j :: 1 <= j < k ==> Numbered(base, j) in taken
  {
    FreeIndexSpec(base, taken, 1);
  }

  /** `unique_path`: probes `root (1)ext`, `root (2)ext`, ... until one is free. */
  method UniquePath(base: string, taken: set<string>) returns (r: string)
    ensures r == UniqueName(base, taken)
  {
    if base !in taken {
      return base;
    }
    var i := 1;
    while Numbered(base, i) in taken
      invariant 1 <= i <= |taken| + 1
      invariant forall j :: 1 <= j < i ==> Numbered(base, j) in taken
      invariant FreeIndex(base, taken, i) == FreeIndex(base, taken, 1)
      decreases |taken| + 1 - i
    {
      TakenBound(base, taken, i);
      i := i + 1;
    }
    r := Numbered(base, i);
  }

  // ---------------------------------------------------------------------------
  // parse_limit

  /** What `parse_limit` returns: `None`, a positive count, or `"invalid"`. */
  datatype Limit = NoLimit | Newest(n: nat) | Unparsable

  /** `parse_limit` on the text of the entry. */
  function ParseLimit(text: string): Limit {
    var t := Strip(text);
    if t == [] then NoLimit
    else match ParseInt(NormalizeDigits(t))
      case None => Unparsable
      case Some(n) => if n <= 0 then NoLimit else Newest(n)
  }

  /** The value of a run of decimal digits of any script the limit field accepts. */
  function RunDigits(s: string): nat
    requires forall k :: 0 <= k < |s| ==> IsDecimal(s[k])
  {
    DigitsValue(NormalizeDigits(s))
  }

  /** A run of decimal digits, ASCII or e.g. Thai, is read as its value: a
      positive value is the limit, zero means no limit. */
  lemma LimitOfDigits(s: string)
    requires |s| >= 1 && forall k :: 0 <= k < |s| ==> IsDecimal(s[k])
    ensures ParseLimit(s) == if RunDigits(s) == 0 then NoLimit else Newest(RunDigits(s))
  {
    var n := NormalizeDigits(s);
    assert forall k :: 0 <= k < |s| ==> IsDigit(s[k]);
    assert !IsSpace(s[0]) && !IsSpace(s[|s| - 1]);
    StripTrimmed(s);
    AsciiRun(n);
    assert !IsSpace(n[0]) && !IsSpace(n[|n| - 1]);
    StripTrimmed(n);
    assert !(n[0] == '+' || n[0] == '-');
  }

  /** Normalising leaves ASCII digits and signs alone. */
  lemma NormalizeKeepsAscii(s: string)
    requires forall k :: 0 <= k < |s| ==> '0' <= s[k] <= '9' || s[k] == '-'
    ensures NormalizeDigits(s) == s
  {
    var n := NormalizeDigits(s);
    forall k | 0 <= k < |s|
      ensures n[k] == s[k]
    {
      if '0' <= s[k] <= '9' {
        assert IsDecimal(s[k]) && DigitValue(s[k]) == s[k] as int - '0' as int;
      }
    }
  }

  /** `str(n)` for a positive `n` is the limit `n`. */
  lemma LimitOfNumeral(n: nat)
    requires n >= 1
    ensures ParseLimit(NatToString(n)) == Newest(n)
  {
    var s := NatToString(n);
    StripTrimmed(s);
    NormalizeKeepsAscii(s);
    ParseIntOfNatToString(n);
  }

  /** A negative number means no limit. */
  lemma LimitOfNegative(n: nat)
    ensures ParseLimit("-" + NatToString(n)) == NoLimit
  {
    var d := NatToString(n);
    var s := "-" + d;
    assert s[|s| - 1] == d[|d| - 1];
    StripTrimmed(s);
    NormalizeKeepsAscii(s);
    ParseIntOfNegated(n);
  }

  /** A text with a letter in it is rejected. */
  lemma LimitRejectsLetter(text: string, k: nat)
    requires k < |Strip(text)| && 'a' <= Strip(text)[k] <= 'z'
    ensures ParseLimit(text) == Unparsable
  {
    var t := Strip(text);
    var n := NormalizeDigits(t);
    assert n[k] == t[k];
    assert !IsDecimal(n[k]);
    ParseIntAccepts(n);
    var u := Strip(n);
    assert u == n by {
      StripEnds(text);
      assert !IsSpace(n[0]) && !IsSpace(n[|n| - 1]) by {
        assert !IsSpace(t[0]) && !IsSpace(t[|t| - 1]);
        assert IsDigit(t[0]) ==> '0' <= n[0] <= '9';
        assert !IsDigit(t[0]) ==> n[0] == t[0];
        assert IsDigit(t[|t| - 1]) ==> '0' <= n[|n| - 1] <= '9';
        assert !IsDigit(t[|t| - 1]) ==> n[|n| - 1] == t[|t| - 1];
      }
      StripTrimmed(n);
    }
    if |u| > 0 && (u[0] == '+' || u[0] == '-') {
      assert k != 0;
      assert !DigitsOrUnderscores(u[1..]) by {
        assert u[1..][k - 1] == n[k];
      }
    }
    assert !DigitsOrUnderscores(u) by {
      assert u[k] == n[k];
    }
  }

  // ---------------------------------------------------------------------------
  // Calendar, shared by the ZIP timestamp and the date filter

  predicate Leap(y: int) {
    y % 4 == 0 && (y % 100 != 0 || y % 400 == 0)
  }

  function DaysIn(y: int, m: int): int {
    if m == 2 then (if Leap(y) then 29 else 28)
    else if m == 4 || m == 6 || m == 9 || m == 11 then 30
    else 31
  }

  /** A calendar date as `datetime.date` holds it. */
  datatype Date = Date(year: int, month: int, day: int)

  /** What `datetime.date` accepts. */
  predicate ValidDate(d: Date) {
    1 <= d.year <= 9999 && 1 <= d.month <= 12 && 1 <= d.day <= DaysIn(d.year, d.month)
  }

  /** `a < b` on dates. */
  predicate Before(a: Date, b: Date) {
    a.year < b.year || (a.year == b.year && (a.month < b.month || (a.month == b.month && a.day < b.day)))
  }

  // ---------------------------------------------------------------------------
  // Sorting: `sorted(...)` and `list.sort(key=..., reverse=True)`

  /** Inserts `x` in front of the first element it may precede. */
  function Insert<T(!new)>(x: T, s: seq<T>, first: (T, T) -> bool): (r: seq<T>)
    ensures |r| == |s| + 1
    decreases |s|
  {
    if s == [] || first(x, s[0]) then [x] + s else [s[0]] + Insert(x, s[1..], first)
  }

  /** Insertion sort by the ordering `first`; `x` goes ahead of every element it
      may precede, so equal elements keep their order. */
  function SortBy<T(!new)>(s: seq<T>, first: (T, T) -> bool): (r: seq<T>)
    ensures |r| == |s|
    decreases |s|
  {
    if s == [] then [] else Insert(s[0], SortBy(s[1..], first), first)
  }

  ghost predicate Total<T(!new)>(first: (T, T) -> bool) {
    forall a: T, b: T :: first(a, b) || first(b, a)
  }

  ghost predicate Transitive<T(!new)>(first: (T, T) -> bool) {
    forall a: T, b: T, c: T :: first(a, b) && first(b, c) ==> first(a, c)
  }

  predicate Ordered<T(!new)>(s: seq<T>, first: (T, T) -> bool) {
    forall i, j :: 0 <= i < j < |s| ==> first(s[i], s[j])
  }

  lemma {:induction false} InsertPerm<T(!new)>(x: T, s: seq<T>, first: (T, T) -> bool)
    ensures multiset(Insert(x, s, first)) == multiset(s) + multiset{x}
    decreases |s|
  {
    if s != [] && !first(x, s[0]) {
      InsertPerm(x, s[1..], first);
      assert s == [s[0]] + s[1..];
    }
  }

  /** An element that may precede `x` and every element of `s` may precede
      everything `Insert` returns. */
  lemma InsertedAfter<T(!new)>(y: T, x: T, s: seq<T>, first: (T, T) -> bool)
    requires first(y, x) && forall k :: 0 <= k < |s| ==> first(y, s[k])
    ensures var t := Insert(x, s, first); forall j :: 0 <= j < |t| ==> first(y, t[j])
  {
    var t := Insert(x, s, first);
    InsertPerm(x, s, first);
    forall j | 0 <= j < |t|
      ensures first(y, t[j])
    {
      assert t[j] in multiset(t);
      if t[j] != x {
        assert t[j] in multiset(s);
        var k :| 0 <= k < |s| && s[k] == t[j];
      }
    }
  }

  lemma {:induction false} InsertSpec<T(!new)>(x: T, s: seq<T>, first: (T, T) -> bool)
    requires Total(first) && Transitive(first) && Ordered(s, first)
    ensures multiset(Insert(x, s, first)) == multiset(s) + multiset{x}
    ensures Ordered(Insert(x, s, first), first)
    decreases |s|
  {
    InsertPerm(x, s, first);
    if s == [] || first(x, s[0]) {
      var r := [x] + s;
      forall j | 0 < j < |r|
        ensures first(x, r[j])
      {
        if j > 1 {
          assert first(s[0], s[j - 1]);
        }
      }
    } else {
      var t := Insert(x, s[1..], first);
      InsertSpec(x, s[1..], first);
      InsertedAfter(s[0], x, s[1..], first);
      var r := [s[0]] + t;
      forall i, j | 0 <= i < j < |r|
        ensures first(r[i], r[j])
      {
        if i > 0 {
          assert r[i] == t[i - 1];
        }
        assert r[j] == t[j - 1];
      }
    }
  }

  /** The sort is a permutation in order. */
  lemma {:induction false} SortBySpec<T(!new)>(s: seq<T>, first: (T, T) -> bool)
    requires Total(first) && Transitive(first)
    ensures multiset(SortBy(s, first)) == multiset(s)
    ensures Ordered(SortBy(s, first), first)
    decreases |s|
  {
    if s != [] {
      SortBySpec(s[1..], first);
      InsertSpec(s[0], SortBy(s[1..], first), first);
      assert s == [s[0]] + s[1..];
    }
  }

  /** Newest first: `reverse=True` on the key. */
  function NewestFirst<T(!new)>(key: T -> int): (T, T) -> bool {
    (a: T, b: T) => key(a) >= key(b)
  }

  lemma NewestFirstOrders<T(!new)>(key: T -> int)
    ensures Total(NewestFirst(key)) && Transitive(NewestFirst(key))
  {
  }

  /** `items.sort(key=key, reverse=True)` then `items[:limit]` when the limit is
      a number, all of them otherwise. */
  function PickNewest<T(!new)>(items: seq<T>, key: T -> int, limit: Limit): seq<T> {
    var sorted := SortBy(items, NewestFirst(key));
    if limit.Newest? then Take(sorted, limit.n) else sorted
  }

  /** The sorted items left out of the pick. */
  function PassedOver<T(!new)>(items: seq<T>, key: T -> int, limit: Limit): seq<T> {
    var sorted := SortBy(items, NewestFirst(key));
    if limit.Newest? && limit.n <= |sorted| then sorted[limit.n..] else []
  }

  /** The pick is the `min(limit, n)` newest items, newest first: together with the
      items passed over it is a permutation of the input, and no item passed over
      is newer than a picked one. */
  lemma PickNewestSpec<T(!new)>(items: seq<T>, key: T -> int, limit: Limit)
    ensures var r := PickNewest(items, key, limit);
      |r| == (if limit.Newest? then Min(limit.n, |items|) else |items|)
    ensures multiset(PickNewest(items, key, limit)) + multiset(PassedOver(items, key, limit)) == multiset(items)
    ensures var r := PickNewest(items, key, limit);
      forall i, j :: 0 <= i < j < |r| ==> key(r[i]) >= key(r[j])
    ensures var r := PickNewest(items, key, limit); var rest := PassedOver(items, key, limit);
      forall i, j :: 0 <= i < |r| && 0 <= j < |rest| ==> key(r[i]) >= key(rest[j])
  {
    var sorted := SortBy(items, NewestFirst(key));
    var r := PickNewest(items, key, limit);
    var rest := PassedOver(items, key, limit);
    SortedNewest(items, key);
    PickSplits(items, key, limit);
    SplitOrdered(sorted, key, r, rest);
  }

  /** `r` is a pick of the `min(limit, n)` newest items: drawn from the items, newest
      first, and no item left out is newer than a picked one. */
  ghost predicate NewestPick<T(!new)>(items: seq<T>, key: T -> int, limit: Limit, r: seq<T>) {
    |r| == (if limit.Newest? then Min(limit.n, |items|) else |items|)
    && multiset(r) <= multiset(items)
    && (forall i, j :: 0 <= i < j < |r| ==> key(r[i]) >= key(r[j]))
    && (forall i, j :: 0 <= i < |r| && 0 <= j < |items| && items[j] !in r ==> key(r[i]) >= key(items[j]))
  }

  /** `PickNewest` makes such a pick. */
  lemma PickNewestPicks<T(!new)>(items: seq<T>, key: T -> int, limit: Limit)
    ensures NewestPick(items, key, limit, PickNewest(items, key, limit))
  {
    var r := PickNewest(items, key, limit);
    var rest := PassedOver(items, key, limit);
    PickNewestSpec(items, key, limit);
    forall i, j | 0 <= i < |r| && 0 <= j < |items| && items[j] !in r
      ensures key(r[i]) >= key(items[j])
    {
      assert items[j] in multiset(items);
      assert items[j] !in multiset(r);
      assert items[j] in multiset(rest);
      var k :| 0 <= k < |rest| && rest[k] == items[j];
    }
  }

  /** Sorting newest first keeps the items and puts them in descending key order. */
  lemma SortedNewest<T(!new)>(items: seq<T>, key: T -> int)
    ensures multiset(SortBy(items, NewestFirst(key))) == multiset(items)
    ensures var sorted := SortBy(items, NewestFirst(key));
      forall i, j :: 0 <= i < j < |sorted| ==> key(sorted[i]) >= key(sorted[j])
  {
    var first := NewestFirst(key);
    var sorted := SortBy(items, first);
    NewestFirstOrders(key);
    SortBySpec(items, first);
    forall i, j | 0 <= i < j < |sorted|
      ensures key(sorted[i]) >= key(sorted[j])
    {
      assert first(sorted[i], sorted[j]);
    }
  }

  /** The pick and the items passed over are the two halves of the sorted items. */
  lemma PickSplits<T(!new)>(items: seq<T>, key: T -> int, limit: Limit)
    ensures SortBy(items, NewestFirst(key)) == PickNewest(items, key, limit) + PassedOver(items, key, limit)
    ensures |PickNewest(items, key, limit)| == (if limit.Newest? then Min(limit.n, |items|) else |items|)
  {
    TakeSplits(SortBy(items, NewestFirst(key)), limit);
  }

  lemma TakeSplits<T>(sorted: seq<T>, limit: Limit)
    ensures var r := if limit.Newest? then Take(sorted, limit.n) else sorted;
      var rest := if limit.Newest? && limit.n <= |sorted| then sorted[limit.n..] else [];
      sorted == r + rest && |r| == (if limit.Newest? then Min(limit.n, |sorted|) else |sorted|)
  {
    if limit.Newest? && limit.n <= |sorted| {
      assert sorted == sorted[..limit.n] + sorted[limit.n..];
    }
  }

  /** The halves of a sequence in descending key order are in that order too, and
      nothing in the second half is above anything in the first. */
  lemma SplitOrdered<T>(sorted: seq<T>, key: T -> int, r: seq<T>, rest: seq<T>)
    requires sorted == r + rest
    requires forall i, j :: 0 <= i < j < |sorted| ==> key(sorted[i]) >= key(sorted[j])
    ensures forall i, j :: 0 <= i < j < |r| ==> key(r[i]) >= key(r[j])
    ensures forall i, j :: 0 <= i < |r| && 0 <= j < |rest| ==> key(r[i]) >= key(rest[j])
  {
    forall i, j | 0 <= i < j < |r|
      ensures key(r[i]) >= key(r[j])
    {
      assert r[i] == sorted[i] && r[j] == sorted[j];
    }
    forall i, j | 0 <= i < |r| && 0 <= j < |rest|
      ensures key(r[i]) >= key(rest[j])
    {
      assert r[i] == sorted[i] && rest[j] == sorted[|r| + j];
    }
  }

  /** Code-point order on strings, as Python compares `str`. */
  predicate NameBefore(a: string, b: string)
    decreases |a|
  {
    a == [] || (b != [] && (a[0] < b[0] || (a[0] == b[0] && NameBefore(a[1..], b[1..]))))
  }

  lemma {:induction false} NameBeforeTotal(a: string, b: string)
    ensures NameBefore(a, b) || NameBefore(b, a)
    decreases |a|
  {
    if a != [] && b != [] && a[0] == b[0] {
      NameBeforeTotal(a[1..], b[1..]);
    }
  }

  lemma {:induction false} NameBeforeTransitive(a: string, b: string, c: string)
    requires NameBefore(a, b) && NameBefore(b, c)
    ensures NameBefore(a, c)
    decreases |a|
  {
    if a != [] && b != [] && c != [] && a[0] == b[0] && b[0] == c[0] {
      NameBeforeTransitive(a[1..], b[1..], c[1..]);
    }
  }

  // ---------------------------------------------------------------------------
  // Archives in the folder

  /** An entry of the archive folder: its name, whether the archive library
      can open and unpack it, and the members it holds. */
  datatype Stored = Stored(name: string, readable: bool, members: seq<Member>)

  /** A member of an archive: its path inside the archive, the ZIP timestamp
      `date_time`, the modification time its unpacked file gets (`None` when
      `os.path.getmtime` fails), and whether copying it out succeeds. A directory
      member's path ends in a separator, as ZIP lists it; the members of a `.7z`
      archive are given in that form too. */
  datatype Member = Member(path: string, dateTime: Stamp, mtime: Option<int>, copies: bool)

  /** The six fields of a ZIP `date_time`. */
  datatype Stamp = Stamp(year: int, month: int, day: int, hour: int, minute: int, second: int)

  predicate IsZip(name: string) {
    EndsWith(Lower(name), ".zip")
  }

  predicate IsSevenZip(name: string) {
    EndsWith(Lower(name), ".7z")
  }

  /** No name ends in both `.zip` and `.7z`. */
  lemma ZipOrSevenZip(name: string)
    ensures !(IsZip(name) && IsSevenZip(name))
  {
    if IsZip(name) {
      var n := Lower(name);
      assert n[|n| - 1] == ".zip"[3];
    }
  }

  predicate IsArchive(s: Stored) {
    IsZip(s.name) || IsSevenZip(s.name)
  }

  predicate IsZipStored(s: Stored) {
    IsZip(s.name)
  }

  function ByName(): (Stored, Stored) -> bool {
    (a: Stored, b: Stored) => NameBefore(a.name, b.name)
  }

  /** The archives to process and whether the "7z not available" warning is
      shown: the sorted `.zip`/`.7z` names, without the `.7z` ones when py7zr is
      missing. */
  datatype Listing = Listing(archives: seq<Stored>, warned: bool)

  function ListArchives(folder: seq<Stored>, sevenZip: bool): Listing {
    var all := SortedArchives(folder);
    if Count(all, SevenZipStored) > 0 && !sevenZip then Listing(Filter(all, IsZipStored), true)
    else Listing(all, false)
  }

  predicate SevenZipStored(s: Stored) {
    IsSevenZip(s.name)
  }

  lemma ByNameOrders()
    ensures Total(ByName()) && Transitive(ByName())
  {
    var first := ByName();
    forall a: Stored, b: Stored
      ensures first(a, b) || first(b, a)
    {
      NameBeforeTotal(a.name, b.name);
    }
    forall a: Stored, b: Stored, c: Stored | first(a, b) && first(b, c)
      ensures first(a, c)
    {
      NameBeforeTransitive(a.name, b.name, c.name);
    }
  }

  /** The archives of the folder in name order. */
  function SortedArchives(folder: seq<Stored>): seq<Stored> {
    Filter(SortBy(folder, ByName()), IsArchive)
  }

  lemma SortedArchivesSpec(folder: seq<Stored>, s: Stored)
    ensures s in SortedArchives(folder) <==> s in folder && IsArchive(s)
    ensures Ordered(SortedArchives(folder), ByName())
  {
    var sorted := SortBy(folder, ByName());
    ByNameOrders();
    SortBySpec(folder, ByName());
    assert s in sorted <==> s in multiset(sorted);
    FilterMembership(sorted, IsArchive, s);
    FilterOrdered(sorted, IsArchive, ByName());
  }

  /** The listing holds exactly the archives the extractor can open, in name
      order. */
  lemma ListArchivesSpec(folder: seq<Stored>, sevenZip: bool, s: Stored)
    ensures var l := ListArchives(folder, sevenZip);
      s in l.archives <==> s in folder && IsArchive(s) && (sevenZip || IsZip(s.name))
    ensures Ordered(ListArchives(folder, sevenZip).archives, ByName())
  {
    var all := SortedArchives(folder);
    SortedArchivesSpec(folder, s);
    FilterMembership(all, IsZipStored, s);
    FilterOrdered(all, IsZipStored, ByName());
    CountPositive(all, SevenZipStored);
    if s in all {
      var k :| 0 <= k < |all| && all[k] == s;
    }
  }

  /** The "7z not available" warning is shown exactly when py7zr is missing and
      the folder holds a `.7z` archive. */
  lemma ListArchivesWarns(folder: seq<Stored>, sevenZip: bool)
    ensures ListArchives(folder, sevenZip).warned
      <==> !sevenZip && exists k :: 0 <= k < |folder| && IsSevenZip(folder[k].name)
  {
    var all := SortedArchives(folder);
    CountPositive(all, SevenZipStored);
    if exists k :: 0 <= k < |all| && IsSevenZip(all[k].name) {
      var k :| 0 <= k < |all| && IsSevenZip(all[k].name);
      SortedArchivesSpec(folder, all[k]);
      var j :| 0 <= j < |folder| && folder[j] == all[k];
    }
    if exists k :: 0 <= k < |folder| && IsSevenZip(folder[k].name) {
      var k :| 0 <= k < |folder| && IsSevenZip(folder[k].name);
      SortedArchivesSpec(folder, folder[k]);
      var j :| 0 <= j < |all| && all[j] == folder[k];
    }
  }

  /** Filtering keeps the order. */
  lemma {:induction false} FilterOrdered<T(!new)>(s: seq<T>, f: T -> bool, first: (T, T) -> bool)
    requires Ordered(s, first)
    ensures Ordered(Filter(s, f), first)
    decreases |s|
  {
    if s != [] {
      var init := s[..|s| - 1];
      assert Ordered(init, first);
      FilterOrdered(init, f, first);
      if f(s[|s| - 1]) {
        var r := Filter(init, f);
        forall k | 0 <= k < |r|
          ensures first(r[k], s[|s| - 1])
        {
          FilterMembership(init, f, r[k]);
          var m :| 0 <= m < |init| && init[m] == r[k];
        }
      }
    }
  }

  // ---------------------------------------------------------------------------
  // Picking members

  /** Directory entries end with a separator and are left out. */
  predicate IsFileMember(m: Member) {
    !EndsWithAny(m.path, ["/", "\\"])
  }

  /** `[zi for zi in zf.infolist() if not zi.filename.endswith(('/', '\\'))]`. */
  function ZipFiles(members: seq<Member>): seq<Member> {
    Filter(members, IsFileMember)
  }

  /** What `datetime(*date_time)` accepts. */
  predicate ValidStamp(t: Stamp) {
    ValidDate(Date(t.year, t.month, t.day)) && 0 <= t.hour < 24 && 0 <= t.minute < 60 && 0 <= t.second < 60
  }

  /** The instant of a valid stamp as a number, in the order `datetime` compares. */
  function Instant(t: Stamp): int {
    ((((t.year * 12 + t.month - 1) * 31 + t.day - 1) * 24 + t.hour) * 60 + t.minute) * 60 + t.second
  }

  /** `datetime.min`. */
  const Earliest: Stamp := Stamp(1, 1, 1, 0, 0, 0)

  /** `_mtime(zi)`: the member's timestamp, or `datetime.min` when `datetime`
      rejects it. */
  function ZipKey(m: Member): int {
    if ValidStamp(m.dateTime) then Instant(m.dateTime) else Instant(Earliest)
  }

  /** Lexicographic order of the six fields, as `datetime` compares. */
  predicate StampBefore(a: Stamp, b: Stamp) {
    a.year < b.year || (a.year == b.year && (a.month < b.month || (a.month == b.month && (a.day < b.day
    || (a.day == b.day && (a.hour < b.hour || (a.hour == b.hour && (a.minute < b.minute
    || (a.minute == b.minute && a.second < b.second)))))))))
  }

  lemma MulLe(a: int, b: int, c: nat)
    requires a <= b
    ensures a * c <= b * c
  {
    var d := b - a;
    assert b * c == a * c + d * c;
  }

  /** One place of a mixed-radix number: the higher place decides first. */
  lemma Digit(x1: int, r1: int, x2: int, r2: int, base: int)
    requires 0 <= r1 < base && 0 <= r2 < base
    ensures x1 * base + r1 < x2 * base + r2 <==> x1 < x2 || (x1 == x2 && r1 < r2)
    ensures x1 * base + r1 == x2 * base + r2 <==> x1 == x2 && r1 == r2
  {
    if x1 < x2 {
      MulLe(x1 + 1, x2, base);
      assert (x1 + 1) * base == x1 * base + base;
    } else if x2 < x1 {
      MulLe(x2 + 1, x1, base);
      assert (x2 + 1) * base == x2 * base + base;
    }
  }

  /** For timestamps `datetime` accepts, the number orders them as `datetime` does. */
  lemma InstantOrder(a: Stamp, b: Stamp)
    requires ValidStamp(a) && ValidStamp(b)
    ensures Instant(a) < Instant(b) <==> StampBefore(a, b)
  {
    StampRanges(a);
    StampRanges(b);
    InstantOrderInRange(a, b);
  }

  predicate InRangeStamp(t: Stamp) {
    1 <= t.month <= 12 && 1 <= t.day <= 31 && 0 <= t.hour < 24 && 0 <= t.minute < 60 && 0 <= t.second < 60
  }

  lemma StampRanges(t: Stamp)
    requires ValidStamp(t)
    ensures InRangeStamp(t)
  {
    assert DaysIn(t.year, t.month) <= 31;
  }

  lemma InstantOrderInRange(a: Stamp, b: Stamp)
    requires InRangeStamp(a) && InRangeStamp(b)
    ensures Instant(a) < Instant(b) <==> StampBefore(a, b)
  {
    var ym1 := a.year * 12 + a.month - 1;
    var ym2 := b.year * 12 + b.month - 1;
    Digit(a.year, a.month - 1, b.year, b.month - 1, 12);
    var d1 := ym1 * 31 + a.day - 1;
    var d2 := ym2 * 31 + b.day - 1;
    Digit(ym1, a.day - 1, ym2, b.day - 1, 31);
    var h1 := d1 * 24 + a.hour;
    var h2 := d2 * 24 + b.hour;
    Digit(d1, a.hour, d2, b.hour, 24);
    var n1 := h1 * 60 + a.minute;
    var n2 := h2 * 60 + b.minute;
    Digit(h1, a.minute, h2, b.minute, 60);
    Digit(n1, a.second, n2, b.second, 60);
  }

  /** A member whose timestamp `datetime` rejects sorts as old as any other. */
  lemma BadStampOldest(m: Member, other: Member)
    requires !ValidStamp(m.dateTime)
    ensures ZipKey(m) <= ZipKey(other)
  {
    if ValidStamp(other.dateTime) {
      var t := other.dateTime;
      InstantOrder(Earliest, t);
      assert !StampBefore(t, Earliest);
    }
  }

  /** The files `os.walk` finds after `extractall`: the non-directory members,
      each under its own base name. */
  function Unpacked(members: seq<Member>): (r: seq<Member>)
    ensures |r| == |ZipFiles(members)|
  {
    var files := ZipFiles(members);
    seq(|files|, k requires 0 <= k < |files| => files[k].(path := Basename(files[k].path)))
  }

  /** `os.path.getmtime(p)`, or 0 when it fails. */
  function MTimeKey(m: Member): int {
    match m.mtime
    case Some(t) => t
    case None => 0
  }

  // ---------------------------------------------------------------------------
  // Copying the picked members out

  /** `sanitize_filename(os.path.splitext(arc_name)[0])`. */
  function ArchivePrefix(arcName: string): string {
    Sanitize(SplitExt(arcName).0)
  }

  /** `sanitize_filename(f"{arc_prefix}_{sanitize_filename(base)}")`. */
  function DestName(prefix: string, base: string): string {
    Sanitize(prefix + "_" + Sanitize(base))
  }

  /** The destination is the archive prefix, `_`, and the cleaned member name,
      unless the cleaned member name ends in whitespace. */
  lemma DestNameJoins(arcName: string, base: string)
    requires var b := Sanitize(base); !IsSpace(b[|b| - 1])
    ensures DestName(ArchivePrefix(arcName), base) == ArchivePrefix(arcName) + "_" + Sanitize(base)
  {
    var p := ArchivePrefix(arcName);
    var b := Sanitize(base);
    SanitizeSpec(SplitExt(arcName).0);
    SanitizeSpec(base);
    var s := p + "_" + b;
    assert s[0] == p[0] && s[|s| - 1] == b[|b| - 1];
    assert forall i :: 0 <= i < |s| ==> !Invalid(s[i]) by {
      forall i | 0 <= i < |s|
        ensures !Invalid(s[i])
      {
        if i < |p| {
          assert s[i] == p[i];
        } else if i > |p| {
          assert s[i] == b[i - |p| - 1];
        }
      }
    }
    SanitizeFixes(s);
  }

  /** A file copied out: the archive, the member, and the name it gets. */
  datatype Copy = Copy(archive: string, member: string, dest: string)

  /** The state of the copy loop over one archive's picked members: the names in
      the output folder, the copies so far, the reads of the cancel flag so far,
      and whether the loop was cut short by a cancel or by a failed copy. */
  datatype Pass = Pass(taken: set<string>, copies: seq<Copy>, checks: nat, cancelled: bool, failed: bool)

  predicate Running(p: Pass) {
    !p.cancelled && !p.failed
  }

  /** One round of `for zi in selected:`: read the flag and stop on it; skip an
      empty base name; otherwise copy to `unique_path(dest)`, where a failed copy
      removes its temporary file, creates nothing and ends the archive. */
  function CopyStep(arc: string, prefix: string, m: Member, p: Pass, stop: Stop): Pass {
    if IsSet(stop, p.checks) then p.(checks := p.checks + 1, cancelled := true)
    else
      var base := Basename(m.path);
      if base == [] then p.(checks := p.checks + 1)
      else
        CopyTo(arc, m, UniqueName(DestName(prefix, base), p.taken), p)
  }

  /** The copy of member `m` to the free name `dest`: a failed copy ends the loop. */
  function CopyTo(arc: string, m: Member, dest: string, p: Pass): Pass {
    if !m.copies then p.(checks := p.checks + 1, failed := true)
    else Pass(p.taken + {dest}, p.copies + [Copy(arc, m.path, dest)], p.checks + 1, false, false)
  }

  /** The copy loop over `picked`, from state `p`. */
  function CopyRun(arc: string, prefix: string, picked: seq<Member>, p: Pass, stop: Stop): Pass
    decreases |picked|
  {
    if picked == [] then p
    else
      var q := CopyRun(arc, prefix, picked[..|picked| - 1], p, stop);
      if Running(q) then CopyStep(arc, prefix, picked[|picked| - 1], q, stop) else q
  }

  /** What the loop keeps: every copy's name is in the output folder, no name is
      used twice, and none of them was there before the run. */
  ghost predicate NoClobber(before: set<string>, taken: set<string>, copies: seq<Copy>) {
    before <= taken
    && (forall i :: 0 <= i < |copies| ==> copies[i].dest in taken && copies[i].dest !in before)
    && (forall i, j :: 0 <= i < j < |copies| ==> copies[i].dest != copies[j].dest)
  }

  /** A new copy goes to a name not yet in the folder, so the run stays clear. */
  lemma NoClobberAdd(before: set<string>, taken: set<string>, copies: seq<Copy>, c: Copy)
    requires NoClobber(before, taken, copies) && c.dest !in taken
    ensures NoClobber(before, taken + {c.dest}, copies + [c])
  {
  }

  lemma CopyStepKeeps(before: set<string>, arc: string, prefix: string, m: Member, p: Pass, stop: Stop)
    requires NoClobber(before, p.taken, p.copies)
    ensures var q := CopyStep(arc, prefix, m, p, stop);
      NoClobber(before, q.taken, q.copies) && q.checks == p.checks + 1
      && |p.copies| <= |q.copies| <= |p.copies| + 1 && q.copies[..|p.copies|] == p.copies
  {
    var base := Basename(m.path);
    if !IsSet(stop, p.checks) && base != [] && m.copies {
      var dest := UniqueName(DestName(prefix, base), p.taken);
      UniqueNameSpec(DestName(prefix, base), p.taken);
      NoClobberAdd(before, p.taken, p.copies, Copy(arc, m.path, dest));
    }
  }

  /** The copy loop never overwrites a file, copies at most one file per picked
      member, and only appends to the copies made so far. */
  lemma {:induction false} CopyRunKeeps(before: set<string>, arc: string, prefix: string, picked: seq<Member>, p: Pass, stop: Stop)
    requires NoClobber(before, p.taken, p.copies)
    ensures var q := CopyRun(arc, prefix, picked, p, stop);
      NoClobber(before, q.taken, q.copies)
      && |p.copies| <= |q.copies| <= |p.copies| + |picked| && q.copies[..|p.copies|] == p.copies
    decreases |picked|
  {
    if picked != [] {
      var init := picked[..|picked| - 1];
      CopyRunKeeps(before, arc, prefix, init, p, stop);
      var q := CopyRun(arc, prefix, init, p, stop);
      if Running(q) {
        CopyStepKeeps(before, arc, prefix, picked[|picked| - 1], q, stop);
        var r := CopyStep(arc, prefix, picked[|picked| - 1], q, stop);
        assert r.copies[..|p.copies|] == q.copies[..|q.copies|][..|p.copies|];
      }
    }
  }

  /** A cancel seen at the start stops the loop before anything is copied. */
  lemma {:induction false} CancelledCopiesNothing(arc: string, prefix: string, picked: seq<Member>, p: Pass, stop: Stop)
    requires Running(p) && IsSet(stop, p.checks)
    ensures CopyRun(arc, prefix, picked, p, stop).copies == p.copies
    ensures picked != [] ==> CopyRun(arc, prefix, picked, p, stop).cancelled
    decreases |picked|
  {
    if picked != [] {
      var init := picked[..|picked| - 1];
      CancelledCopiesNothing(arc, prefix, init, p, stop);
      if init != [] {
        assert !Running(CopyRun(arc, prefix, init, p, stop));
      }
    }
  }

  lemma CopyRunSnoc(arc: string, prefix: string, picked: seq<Member>, i: nat, p: Pass, stop: Stop)
    requires i < |picked|
    ensures var q := CopyRun(arc, prefix, picked[..i], p, stop);
      CopyRun(arc, prefix, picked[..i + 1], p, stop)
      == if Running(q) then CopyStep(arc, prefix, picked[i], q, stop) else q
  {
    assert picked[..i + 1][..i] == picked[..i];
  }

  /** One round of the copy loop. */
  method CopyMember(arc: string, prefix: string, m: Member, p: Pass, stop: Stop) returns (q: Pass)
    ensures q == CopyStep(arc, prefix, m, p, stop)
  {
    if IsSet(stop, p.checks) {
      return p.(checks := p.checks + 1, cancelled := true);
    }
    var base := Basename(m.path);
    if base == [] {
      return p.(checks := p.checks + 1);
    }
    var dest := UniquePath(DestName(prefix, base), p.taken);
    q := CopyFile(arc, m, dest, p);
  }

  /** `shutil.copyfileobj` into the new file, and the name taken. */
  method CopyFile(arc: string, m: Member, dest: string, p: Pass) returns (q: Pass)
    ensures q == CopyTo(arc, m, dest, p)
  {
    if !m.copies {
      return p.(checks := p.checks + 1, failed := true);
    }
    q := Pass(p.taken + {dest}, p.copies + [Copy(arc, m.path, dest)], p.checks + 1, false, false);
  }

  /** `for zi in selected: ...` over one archive's picked members. */
  method CopyMembers(arc: string, prefix: string, picked: seq<Member>, p: Pass, stop: Stop) returns (q: Pass)
    ensures q == CopyRun(arc, prefix, picked, p, stop)
  {
    q := p;
    var i := 0;
    while i < |picked| && Running(q)
      invariant 0 <= i <= |picked|
      invariant q == CopyRun(arc, prefix, picked[..i], p, stop)
    {
      CopyRunSnoc(arc, prefix, picked, i, p, stop);
      q := CopyMember(arc, prefix, picked[i], q, stop);
      i := i + 1;
    }
    StoppedStays(arc, prefix, picked, i, p, stop);
  }

  /** Once the loop has stopped, the remaining members change nothing. */
  lemma {:induction false} StoppedStays(arc: string, prefix: string, picked: seq<Member>, i: nat, p: Pass, stop: Stop)
    requires i <= |picked|
    requires i == |picked| || !Running(CopyRun(arc, prefix, picked[..i], p, stop))
    ensures CopyRun(arc, prefix, picked, p, stop) == CopyRun(arc, prefix, picked[..i], p, stop)
    decreases |picked| - i
  {
    if i < |picked| {
      CopyRunSnoc(arc, prefix, picked, i, p, stop);
      StoppedStays(arc, prefix, picked, i + 1, p, stop);
    } else {
      assert picked[..i] == picked;
    }
  }

  // ---------------------------------------------------------------------------
  // The loop over the archives: `for i, arc_name in enumerate(archives, 1):`

  /** What one archive contributes: its name, whether it can be opened (and, for
      `.7z`, unpacked), how many reads of the cancel flag the collection of its
      unpacked files makes before the copy loop, the members picked for copying,
      in copy order, and the prefix of their new names (`ArchivePrefix` of the
      archive's name). */
  datatype Job = Job(archive: string, prefix: string, opens: bool, scans: nat, picked: seq<Member>)

  /** The state of the archive loop: the names in the output folder, the copies
      made, the error lines (one per failed archive, naming it), the reads of the
      cancel flag so far, and whether a read has seen it set. */
  datatype Progress = Progress(taken: set<string>, copies: seq<Copy>, errors: seq<string>, checks: nat, cancelled: bool)

  /** One round of the archive loop. A read that sees the flag set ends the run:
      the flag stays set, so every later read sees it too and nothing more is
      copied. An archive that cannot be opened, or whose copy loop ends on a
      failed copy, adds its name to the errors. */
  function ArchiveStep(job: Job, pr: Progress, stop: Stop): Progress {
    if IsSet(stop, pr.checks) then pr.(checks := pr.checks + 1, cancelled := true)
    else if !job.opens then pr.(checks := pr.checks + 1, errors := pr.errors + [job.archive])
    else if job.scans > 0 && IsSet(stop, pr.checks + job.scans) then
      pr.(checks := pr.checks + 1 + job.scans, cancelled := true)
    else CopyArchive(job.archive, job.prefix, job.picked, pr, pr.checks + 1 + job.scans, stop)
  }

  /** The copy loop of an archive that opened and was scanned without a cancel, its
      first read of the flag being read number `checks`. */
  function CopyArchive(arc: string, prefix: string, picked: seq<Member>, pr: Progress, checks: nat, stop: Stop): Progress {
    var p := CopyRun(arc, prefix, picked, Pass(pr.taken, pr.copies, checks, false, false), stop);
    Progress(p.taken, p.copies, if p.failed then pr.errors + [arc] else pr.errors, p.checks, p.cancelled)
  }

  /** The archive loop over `jobs`, from state `pr`. */
  function ArchiveRun(jobs: seq<Job>, pr: Progress, stop: Stop): Progress
    decreases |jobs|
  {
    if jobs == [] then pr
    else
      var q := ArchiveRun(jobs[..|jobs| - 1], pr, stop);
      if q.cancelled then q else ArchiveStep(jobs[|jobs| - 1], q, stop)
  }

  lemma ArchiveStepKeeps(before: set<string>, job: Job, pr: Progress, stop: Stop)
    requires NoClobber(before, pr.taken, pr.copies)
    ensures var q := ArchiveStep(job, pr, stop);
      NoClobber(before, q.taken, q.copies)
      && |pr.copies| <= |q.copies| && q.copies[..|pr.copies|] == pr.copies
  {
    var q := ArchiveStep(job, pr, stop);
    if !IsSet(stop, pr.checks) && job.opens && !(job.scans > 0 && IsSet(stop, pr.checks + job.scans)) {
      CopyArchiveKeeps(before, job.archive, job.prefix, job.picked, pr, pr.checks + 1 + job.scans, stop);
    } else {
      assert q.taken == pr.taken && q.copies == pr.copies;
      assert pr.copies[..|pr.copies|] == pr.copies;
    }
  }

  lemma CopyArchiveKeeps(before: set<string>, arc: string, prefix: string, picked: seq<Member>,
                         pr: Progress, checks: nat, stop: Stop)
    requires NoClobber(before, pr.taken, pr.copies)
    ensures var q := CopyArchive(arc, prefix, picked, pr, checks, stop);
      NoClobber(before, q.taken, q.copies)
      && |pr.copies| <= |q.copies| && q.copies[..|pr.copies|] == pr.copies
  {
    CopyRunKeeps(before, arc, prefix, picked, Pass(pr.taken, pr.copies, checks, false, false), stop);
  }

  /** The whole run never overwrites a file: every copy goes to a name that was
      not in the output folder before and that no other copy uses. */
  lemma {:induction false} ArchiveRunKeeps(before: set<string>, jobs: seq<Job>, pr: Progress, stop: Stop)
    requires NoClobber(before, pr.taken, pr.copies)
    ensures var q := ArchiveRun(jobs, pr, stop);
      NoClobber(before, q.taken, q.copies) && |pr.copies| <= |q.copies| && q.copies[..|pr.copies|] == pr.copies
    decreases |jobs|
  {
    if jobs != [] {
      var init := jobs[..|jobs| - 1];
      ArchiveRunKeeps(before, init, pr, stop);
      var q := ArchiveRun(init, pr, stop);
      if !q.cancelled {
        ArchiveStepKeeps(before, jobs[|jobs| - 1], q, stop);
      }
    }
  }

  /** A cancel seen at the first read copies nothing and reports no error. */
  lemma {:induction false} CancelledAtOnce(jobs: seq<Job>, pr: Progress, stop: Stop)
    requires !pr.cancelled && IsSet(stop, pr.checks)
    ensures ArchiveRun(jobs, pr, stop).copies == pr.copies
    ensures ArchiveRun(jobs, pr, stop).errors == pr.errors
    ensures jobs != [] ==> ArchiveRun(jobs, pr, stop).cancelled
    decreases |jobs|
  {
    if jobs != [] {
      CancelledAtOnce(jobs[..|jobs| - 1], pr, stop);
    }
  }

  lemma ArchiveRunSnoc(jobs: seq<Job>, i: nat, pr: Progress, stop: Stop)
    requires i < |jobs|
    ensures var q := ArchiveRun(jobs[..i], pr, stop);
      ArchiveRun(jobs[..i + 1], pr, stop) == if q.cancelled then q else ArchiveStep(jobs[i], q, stop)
  {
    assert jobs[..i + 1][..i] == jobs[..i];
  }

  lemma {:induction false} ArchiveRunStopped(jobs: seq<Job>, i: nat, pr: Progress, stop: Stop)
    requires i <= |jobs|
    requires i == |jobs| || ArchiveRun(jobs[..i], pr, stop).cancelled
    ensures ArchiveRun(jobs, pr, stop) == ArchiveRun(jobs[..i], pr, stop)
    decreases |jobs| - i
  {
    if i < |jobs| {
      ArchiveRunSnoc(jobs, i, pr, stop);
      ArchiveRunStopped(jobs, i + 1, pr, stop);
    } else {
      assert jobs[..i] == jobs;
    }
  }

  /** One round of the archive loop. */
  method ProcessArchive(job: Job, pr: Progress, stop: Stop) returns (q: Progress)
    ensures q == ArchiveStep(job, pr, stop)
  {
    if IsSet(stop, pr.checks) {
      return pr.(checks := pr.checks + 1, cancelled := true);
    }
    if !job.opens {
      return pr.(checks := pr.checks + 1, errors := pr.errors + [job.archive]);
    }
    if job.scans > 0 && IsSet(stop, pr.checks + job.scans) {
      return pr.(checks := pr.checks + 1 + job.scans, cancelled := true);
    }
    var p := CopyMembers(job.archive, job.prefix, job.picked,
      Pass(pr.taken, pr.copies, pr.checks + 1 + job.scans, false, false), stop);
    var errors := if p.failed then pr.errors + [job.archive] else pr.errors;
    q := Progress(p.taken, p.copies, errors, p.checks, p.cancelled);
  }

  /** The archive loop. */
  method ProcessArchives(jobs: seq<Job>, pr: Progress, stop: Stop) returns (q: Progress)
    ensures q == ArchiveRun(jobs, pr, stop)
  {
    q := pr;
    var i := 0;
    while i < |jobs| && !q.cancelled
      invariant 0 <= i <= |jobs|
      invariant q == ArchiveRun(jobs[..i], pr, stop)
    {
      ArchiveRunSnoc(jobs, i, pr, stop);
      q := ProcessArchive(jobs[i], q, stop);
      i := i + 1;
    }
    ArchiveRunStopped(jobs, i, pr, stop);
  }

  /** How `finish()` ends the run: it reads the flag once more. */
  datatype Status = Cancelled | DoneWithErrors | Done

  function Finish(pr: Progress, stop: Stop): Status {
    if pr.cancelled || IsSet(stop, pr.checks) then Cancelled
    else if pr.errors != [] then DoneWithErrors
    else Done
  }

  /** Why a run is refused before any archive is touched. */
  datatype Refusal = BadLimit | BadDate | NoDate | BadFolders

  /** What a run shows: a refusal, the "no archives" notice, or the end of the
      archive loop: whether the 7z warning was shown, the copies, the errors,
      the final status and the names in the output folder. */
  datatype Report =
    | Refused(why: Refusal)
    | NoArchives
    | Finished(warned: bool, copies: seq<Copy>, errors: seq<string>, status: Status, output: set<string>)

  /** The report of the archive loop over `jobs` into an output folder holding
      `output`. */
  function RunJobs(warned: bool, jobs: seq<Job>, output: set<string>, stop: Stop): Report {
    var pr := ArchiveRun(jobs, Progress(output, [], [], 0, false), stop);
    Finished(warned, pr.copies, pr.errors, Finish(pr, stop), pr.taken)
  }

  /** No copy of a run lands on a name that was in the output folder, no two
      copies share a name, and the folder ends up holding every copy. */
  lemma RunJobsNoClobber(warned: bool, jobs: seq<Job>, output: set<string>, stop: Stop)
    ensures var r := RunJobs(warned, jobs, output, stop);
      NoClobber(output, r.output, r.copies)
  {
    ArchiveRunKeeps(output, jobs, Progress(output, [], [], 0, false), stop);
  }

  /** A run whose first read of the flag sees it set copies nothing and ends
      cancelled. */
  lemma RunJobsCancelled(warned: bool, jobs: seq<Job>, output: set<string>)
    ensures var r := RunJobs(warned, jobs, output, FromCheck(0));
      r.copies == [] && r.errors == [] && r.status == Cancelled
  {
    CancelledAtOnce(jobs, Progress(output, [], [], 0, false), FromCheck(0));
  }

  /** The loop over the archives with the final read of the flag. */
  method RunArchives(warned: bool, jobs: seq<Job>, output: set<string>, stop: Stop) returns (r: Report)
    ensures r == RunJobs(warned, jobs, output, stop)
  {
    var pr := ProcessArchives(jobs, Progress(output, [], [], 0, false), stop);
    var status := if pr.cancelled || IsSet(stop, pr.checks) then Cancelled
      else if pr.errors != [] then DoneWithErrors else Done;
    r := Finished(warned, pr.copies, pr.errors, status, pr.taken);
  }

  /** The flag as the worker meets it: a cancel requested before the run is seen
      at the first read. */
  function Effective(cancel: bool, stop: Stop): Stop {
    if cancel then FromCheck(0) else stop
  }
}
