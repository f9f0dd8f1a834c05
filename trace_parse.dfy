/** The payload parsers of the CMD-V4 trace viewer: namespace stripping, `;` payload
    splitting, `,` field parsing into an ordered key/value list, the CNG_DISP_STANDARD
    dispense-line parser, the glossary key folding and the row filter of the view. */
module TraceParse {
  import opened Opt
  import opened PyText
  import opened Seqs
  import PyInt

  /** The element tags the viewer and the reporter look at. */
  const ShownTags: seq<string> := ["EVENT", "COMMAND", "ENTRY"]

  /** The element type, or payload word, that marks a dispense-mix record. */
  const CngType: string := "CNG_DISP_STANDARD"

  // ---------------------------------------------------------------- strip_ns

  /** `strip_ns`: the text after the first `}`, or the tag itself when it has none. */
  function StripNs(tag: string): (r: string)
    ensures '}' !in tag ==> r == tag
    ensures '}' in tag ==>
      |r| < |tag| && tag[|tag| - |r| - 1] == '}' && r == tag[|tag| - |r|..]
      && '}' !in tag[..|tag| - |r| - 1]
  {
    var i := IndexOf(tag, '}');
    if i < |tag| then tag[i + 1..] else tag
  }

  /** A Clark-notation tag `{namespace}local` loses exactly its namespace part. */
  lemma StripNsQualified(ns: string, local: string)
    requires '}' !in ns
    ensures StripNs("{" + ns + "}" + local) == local
  {
    var t := "{" + ns + "}" + local;
    var i := IndexOf(t, '}');
    assert t[..|ns| + 1] == "{" + ns;
    assert t[|ns| + 1] == '}';
    assert forall j :: 0 <= j <= |ns| ==> t[j] != '}' by {
      forall j | 0 <= j <= |ns| ensures t[j] != '}' {
        assert t[j] == ("{" + ns)[j];
      }
    }
    assert forall j :: 0 <= j < i ==> t[j] != '}' by {
      forall j | 0 <= j < i ensures t[j] != '}' {
        assert t[..i][j] == t[j];
      }
    }
    assert i == |ns| + 1;
    assert t[i + 1..] == local;
  }

  // ------------------------------------------------------- smart_split_payload

  /** `[s.strip() for s in parts if s.strip()]`. */
  function Pieces(parts: seq<string>): (r: seq<string>)
    ensures |r| <= |parts|
    decreases |parts|
  {
    if |parts| == 0 then []
    else (if Strip(parts[0]) != [] then [Strip(parts[0])] else []) + Pieces(parts[1..])
  }

  /** A piece is exactly a non-blank part, stripped. */
  lemma {:induction false} PiecesMembers(parts: seq<string>, k: string)
    ensures k in Pieces(parts) <==> exists i :: 0 <= i < |parts| && Strip(parts[i]) != [] && k == Strip(parts[i])
    decreases |parts|
  {
    if |parts| > 0 {
      PiecesMembers(parts[1..], k);
      assert forall i :: 1 <= i < |parts| ==> parts[i] == parts[1..][i - 1];
      if exists i :: 0 <= i < |parts| && Strip(parts[i]) != [] && k == Strip(parts[i]) {
        var i :| 0 <= i < |parts| && Strip(parts[i]) != [] && k == Strip(parts[i]);
        if i > 0 {
          assert parts[1..][i - 1] == parts[i];
        }
      }
    }
  }

  /** Parts that are already non-blank and stripped pass through unchanged and in order. */
  lemma {:induction false} PiecesOfTrimmed(parts: seq<string>)
    requires forall i :: 0 <= i < |parts| ==> parts[i] != [] && Strip(parts[i]) == parts[i]
    ensures Pieces(parts) == parts
    decreases |parts|
  {
    if |parts| > 0 {
      assert forall i :: 0 <= i < |parts| - 1 ==> parts[1..][i] == parts[i + 1];
      PiecesOfTrimmed(parts[1..]);
      assert parts == [parts[0]] + parts[1..];
    }
  }

  /** `smart_split_payload`: no text gives no segments; otherwise the non-blank
      `;`-separated parts, stripped, in order. */
  function SplitPayload(text: Option<string>): seq<string> {
    match text
    case None => []
    case Some(t) => Pieces(Split(t, ';'))
  }

  /** Every segment is non-blank, has no surrounding whitespace and holds no `;`. */
  lemma PayloadSegments(t: string, k: string)
    requires k in SplitPayload(Some(t))
    ensures k != [] && Strip(k) == k && ';' !in k
  {
    var parts := Split(t, ';');
    PiecesMembers(parts, k);
    var i :| 0 <= i < |parts| && Strip(parts[i]) != [] && k == Strip(parts[i]);
    SplitPiecesFree(t, ';');
    StrippedPart(parts[i]);
  }

  /** A non-blank part, stripped, is trimmed and holds only characters of the part. */
  lemma StrippedPart(part: string)
    requires Strip(part) != []
    ensures Strip(Strip(part)) == Strip(part)
    ensures forall c :: c in Strip(part) ==> c in part
  {
    StripEnds(part);
    PyInt.StripTrimmed(Strip(part));
    forall c | c in Strip(part) ensures c in part {
      StripKeeps(part, c);
    }
  }

  /** The splitter inverts `";".join` on segments that are non-blank, trimmed and `;`-free. */
  lemma PayloadOfJoin(segs: seq<string>)
    requires |segs| >= 1
    requires forall i :: 0 <= i < |segs| ==> segs[i] != [] && Strip(segs[i]) == segs[i] && ';' !in segs[i]
    ensures SplitPayload(Some(Join(segs, ";"))) == segs
  {
    SplitOfJoin(segs, ';');
    PiecesOfTrimmed(segs);
  }

  // -------------------------------------------------------------- parse_segment

  /** One entry of the `OrderedDict` that `parse_segment` fills. */
  datatype Field = Field(key: string, value: string)

  function Keys(d: seq<Field>): (ks: seq<string>)
    ensures |ks| == |d|
    ensures forall i :: 0 <= i < |d| ==> ks[i] == d[i].key
    decreases |d|
  {
    if |d| == 0 then [] else [d[0].key] + Keys(d[1..])
  }

  predicate DistinctKeys(d: seq<Field>) {
    forall i, j :: 0 <= i < j < |d| ==> d[i].key != d[j].key
  }

  /** `d[key] = value` on an `OrderedDict`: a present key keeps its place and takes the
      new value, a new key goes last. */
  function Put(d: seq<Field>, key: string, value: string): (r: seq<Field>)
    decreases |d|
  {
    if |d| == 0 then [Field(key, value)]
    else if d[0].key == key then [Field(key, value)] + d[1..]
    else [d[0]] + Put(d[1..], key, value)
  }

  /** Assignment stores the new entry, keeps every entry under another key and adds
      nothing else. */
  lemma {:induction false} PutMembers(d: seq<Field>, key: string, value: string)
    ensures var r := Put(d, key, value);
      Field(key, value) in r
      && (forall f :: f in d && f.key != key ==> f in r)
      && forall f :: f in r ==> f in d || f == Field(key, value)
    decreases |d|
  {
    if |d| > 0 && d[0].key != key {
      PutMembers(d[1..], key, value);
      assert Put(d, key, value) == [d[0]] + Put(d[1..], key, value);
      assert forall f :: f in d ==> f == d[0] || f in d[1..];
    } else if |d| > 0 {
      assert forall f :: f in d ==> f == d[0] || f in d[1..];
    }
  }

  /** A missing key is appended; a present key keeps the length. */
  lemma {:induction false} PutPlace(d: seq<Field>, key: string, value: string)
    ensures key !in Keys(d) ==> Put(d, key, value) == d + [Field(key, value)]
    ensures key in Keys(d) ==> |Put(d, key, value)| == |d|
    decreases |d|
  {
    if |d| > 0 && d[0].key != key {
      PutPlace(d[1..], key, value);
      assert Keys(d) == [d[0].key] + Keys(d[1..]);
      assert d == [d[0]] + d[1..];
    }
  }

  /** Assigning to a present key leaves the key list as it was. */
  lemma {:induction false} PutKeyList(d: seq<Field>, key: string, value: string)
    requires key in Keys(d)
    ensures Keys(Put(d, key, value)) == Keys(d)
    decreases |d|
  {
    if d[0].key != key {
      PutKeyList(d[1..], key, value);
    }
  }

  lemma PutDistinct(d: seq<Field>, key: string, value: string)
    requires DistinctKeys(d)
    ensures DistinctKeys(Put(d, key, value))
  {
    PutPlace(d, key, value);
    var r := Put(d, key, value);
    if key in Keys(d) {
      PutKeyList(d, key, value);
      forall i, j | 0 <= i < j < |r| ensures r[i].key != r[j].key {
        assert r[i].key == Keys(r)[i] == d[i].key;
        assert r[j].key == Keys(r)[j] == d[j].key;
      }
    } else {
      forall i, j | 0 <= i < j < |r| ensures r[i].key != r[j].key {
        assert r[i] == d[i];
        if j == |d| {
          assert Keys(d)[i] == d[i].key;
        } else {
          assert r[j] == d[j];
        }
      }
    }
  }

  /** Assignment keeps the keys distinct, adds the key if it was missing and changes
      no other entry. */
  lemma PutSpec(d: seq<Field>, key: string, value: string)
    requires DistinctKeys(d)
    ensures var r := Put(d, key, value);
      DistinctKeys(r) && Field(key, value) in r
      && (key in Keys(d) ==> |r| == |d|)
      && (key !in Keys(d) ==> r == d + [Field(key, value)])
      && (forall f :: f in d && f.key != key ==> f in r)
      && forall f :: f in r ==> f in d || f == Field(key, value)
  {
    PutMembers(d, key, value);
    PutPlace(d, key, value);
    PutDistinct(d, key, value);
  }

  /** Times a name was counted by the `seen` map (a `defaultdict(int)`). */
  function Seen(seen: map<string, nat>, k: string): nat {
    if k in seen then seen[k] else 0
  }

  function Bump(seen: map<string, nat>, k: string): map<string, nat> {
    seen[k := Seen(seen, k) + 1]
  }

  /** The stored name of the `n`-th use of key `k`: `k` itself, then `k#2`, `k#3`, ... */
  function KeyOf(k: string, n: nat): string {
    if n == 1 then k else k + "#" + NatToString(n)
  }

  /** The key text of a `key=value` part: before the first `=`, stripped. */
  function KeyText(p: string): string {
    Strip(p[..IndexOf(p, '=')])
  }

  /** The value text of a `key=value` part: after the first `=`, stripped. */
  function ValueText(p: string): string
    requires '=' in p
  {
    Strip(p[IndexOf(p, '=') + 1..])
  }

  /** The positional name of a part: `F1`, `F2`, ... */
  function PositionName(n: nat): string {
    "F" + NatToString(n)
  }

  /** The `seen` counter and the dictionary after some parts in key=value mode. */
  datatype KvState = KvState(seen: map<string, nat>, out: seq<Field>)

  /** One part in key=value mode. A bare part bumps the counter of the name `F`, which
      is shared with a literal key `F`, and is named by it. */
  function KvStep(st: KvState, p: string): KvState {
    if '=' in p then
      var k := KeyText(p);
      var seen := Bump(st.seen, k);
      KvState(seen, Put(st.out, KeyOf(k, Seen(seen, k)), ValueText(p)))
    else
      var bare := Bump(st.seen, "F");
      var k := PositionName(Seen(bare, "F"));
      var seen := Bump(bare, k);
      KvState(seen, Put(st.out, KeyOf(k, Seen(seen, k)), p))
  }

  function KvRun(parts: seq<string>): KvState
    decreases |parts|
  {
    if |parts| == 0 then KvState(map[], [])
    else KvStep(KvRun(parts[..|parts| - 1]), parts[|parts| - 1])
  }

  /** Positional mode: part `i` (from 1) is stored as `Fi`. */
  function Positional(parts: seq<string>): seq<Field> {
    seq(|parts|, i requires 0 <= i < |parts| => Field(PositionName(i + 1), parts[i]))
  }

  /** The non-blank comma parts of a segment, stripped. */
  function SegmentParts(segment: string): seq<string> {
    Pieces(Split(Strip(segment), ','))
  }

  predicate HasKeyValue(parts: seq<string>) {
    exists i :: 0 <= i < |parts| && '=' in parts[i]
  }

  /** `parse_segment`: nothing for a blank segment; key=value mode as soon as one part
      holds `=`; positional mode otherwise. */
  function SegmentFields(segment: string): seq<Field> {
    var parts := SegmentParts(segment);
    if Strip(segment) == [] then []
    else if HasKeyValue(parts) then KvRun(parts).out
    else Positional(parts)
  }

  /** One pass of the key=value loop of `parse_segment`. */
  method KvPart(seen0: map<string, nat>, out0: seq<Field>, p: string)
    returns (seen: map<string, nat>, out: seq<Field>)
    ensures KvState(seen, out) == KvStep(KvState(seen0, out0), p)
  {
    seen := seen0;
    var k, v;
    if '=' in p {
      var e := IndexOf(p, '=');
      k, v := Strip(p[..e]), Strip(p[e + 1..]);
    } else {
      seen := seen["F" := Seen(seen, "F") + 1];
      k, v := PositionName(seen["F"]), p;
    }
    seen := seen[k := Seen(seen, k) + 1];
    var key := if seen[k] == 1 then k else k + "#" + NatToString(seen[k]);
    out := Put(out0, key, v);
  }

  /** The key=value loop of `parse_segment`. */
  method KvFields(parts: seq<string>) returns (out: seq<Field>)
    ensures out == KvRun(parts).out
  {
    var seen: map<string, nat> := map[];
    out := [];
    var i := 0;
    while i < |parts|
      invariant i <= |parts|
      invariant KvState(seen, out) == KvRun(parts[..i])
    {
      seen, out := KvPart(seen, out, parts[i]);
      assert parts[..i + 1][..i] == parts[..i];
      i := i + 1;
    }
    assert parts[..i] == parts;
  }

  lemma PositionalSnoc(parts: seq<string>, i: nat)
    requires i < |parts|
    ensures Positional(parts[..i + 1]) == Positional(parts[..i]) + [Field(PositionName(i + 1), parts[i])]
  {
  }

  /** The positional loop of `parse_segment`. */
  method PositionalFields(parts: seq<string>) returns (out: seq<Field>)
    ensures out == Positional(parts)
  {
    out := [];
    var i := 0;
    while i < |parts|
      invariant i <= |parts|
      invariant out == Positional(parts[..i])
    {
      PositionalKeysFresh(parts[..i], i + 1);
      PutPlace(out, PositionName(i + 1), parts[i]);
      PositionalSnoc(parts, i);
      out := Put(out, PositionName(i + 1), parts[i]);
      i := i + 1;
    }
    assert parts[..i] == parts;
  }

  lemma PositionalKeysFresh(parts: seq<string>, n: nat)
    requires n > |parts|
    ensures DistinctKeys(Positional(parts)) && PositionName(n) !in Keys(Positional(parts))
  {
    var d := Positional(parts);
    forall i, j | 0 <= i < j < |d| ensures d[i].key != d[j].key {
      if d[i].key == d[j].key {
        assert NatToString(i + 1) == d[i].key[1..] && NatToString(j + 1) == d[j].key[1..];
        NatToStringInjective(i + 1, j + 1);
      }
    }
    if PositionName(n) in Keys(d) {
      var i :| 0 <= i < |d| && Keys(d)[i] == PositionName(n);
      assert NatToString(i + 1) == Keys(d)[i][1..] && NatToString(n) == PositionName(n)[1..];
      NatToStringInjective(i + 1, n);
    }
  }

  /** `parse_segment`. */
  method ParseSegment(segment: string) returns (out: seq<Field>)
    ensures out == SegmentFields(segment)
    ensures Strip(segment) == [] ==> out == []
  {
    var s := Strip(segment);
    if s == [] {
      return [];
    }
    var parts := Pieces(Split(s, ','));
    if exists i :: 0 <= i < |parts| && '=' in parts[i] {
      out := KvFields(parts);
    } else {
      out := PositionalFields(parts);
    }
  }

  /** The dictionary `parse_segment` builds never holds a key twice. */
  lemma SegmentKeysDistinct(segment: string)
    ensures DistinctKeys(SegmentFields(segment))
  {
    var parts := SegmentParts(segment);
    if Strip(segment) != [] {
      if HasKeyValue(parts) {
        KvRunDistinct(parts);
      } else {
        PositionalKeysFresh(parts, |parts| + 1);
      }
    }
  }

  lemma {:induction false} KvRunDistinct(parts: seq<string>)
    ensures DistinctKeys(KvRun(parts).out)
    decreases |parts|
  {
    if |parts| > 0 {
      var st := KvRun(parts[..|parts| - 1]);
      KvRunDistinct(parts[..|parts| - 1]);
      var p := parts[|parts| - 1];
      if '=' in p {
        var k := KeyText(p);
        PutSpec(st.out, KeyOf(k, Seen(Bump(st.seen, k), k)), ValueText(p));
      } else {
        var bare := Bump(st.seen, "F");
        var k := PositionName(Seen(bare, "F"));
        PutSpec(st.out, KeyOf(k, Seen(Bump(bare, k), k)), p);
      }
    }
  }

  /** With no `=` anywhere, the fields are `F1`..`Fn` holding the n values of a
      comma-joined list, in order: the parser inverts `",".join` on values that are
      non-blank, trimmed and free of `,` and `=`. */
  lemma PositionalOfJoin(values: seq<string>)
    requires |values| >= 1
    requires forall i :: 0 <= i < |values| ==>
      values[i] != [] && Strip(values[i]) == values[i] && ',' !in values[i] && '=' !in values[i]
    ensures var fields := SegmentFields(Join(values, ","));
      |fields| == |values|
      && forall i :: 0 <= i < |values| ==> fields[i] == Field(PositionName(i + 1), values[i])
  {
    JoinPositional(values);
  }

  /** Such a join is parsed in positional mode, over the values. */
  lemma JoinPositional(values: seq<string>)
    requires |values| >= 1
    requires forall i :: 0 <= i < |values| ==>
      values[i] != [] && Strip(values[i]) == values[i] && ',' !in values[i] && '=' !in values[i]
    ensures SegmentFields(Join(values, ",")) == Positional(values)
  {
    JoinParts(values);
    assert !HasKeyValue(values);
  }

  /** The join of non-blank trimmed values is itself trimmed. */
  lemma JoinTrimmed(values: seq<string>)
    requires |values| >= 1
    requires forall i :: 0 <= i < |values| ==> values[i] != [] && Strip(values[i]) == values[i]
    ensures |Join(values, ",")| >= 1 && Strip(Join(values, ",")) == Join(values, ",")
  {
    StripEnds(values[0]);
    StripEnds(values[|values| - 1]);
    JoinEnds(values, ",");
    PyInt.StripTrimmed(Join(values, ","));
  }

  /** The comma parts of such a join are the values themselves. */
  lemma JoinParts(values: seq<string>)
    requires |values| >= 1
    requires forall i :: 0 <= i < |values| ==>
      values[i] != [] && Strip(values[i]) == values[i] && ',' !in values[i]
    ensures |Join(values, ",")| >= 1 && Strip(Join(values, ",")) == Join(values, ",")
    ensures SegmentParts(Join(values, ",")) == values
  {
    JoinTrimmed(values);
    SplitOfJoin(values, ',');
    PiecesOfTrimmed(values);
  }

  /** A join of non-empty pieces starts with the first piece's first character and ends
      with the last piece's last character. */
  lemma {:induction false} JoinEnds(parts: seq<string>, sep: string)
    requires |parts| >= 1 && forall i :: 0 <= i < |parts| ==> parts[i] != []
    ensures var s := Join(parts, sep);
      |s| >= 1 && s[0] == parts[0][0] && s[|s| - 1] == parts[|parts| - 1][|parts[|parts| - 1]| - 1]
    decreases |parts|
  {
    if |parts| > 1 {
      var rest := parts[1..];
      assert rest[|rest| - 1] == parts[|parts| - 1];
      JoinEnds(rest, sep);
      assert Join(parts, sep) == parts[0] + sep + Join(rest, sep);
    }
  }

  /** Parts counted so far whose key text is `k`. */
  predicate NamesKey(k: string, p: string) {
    '=' in p && KeyText(p) == k
  }

  /** For a key not beginning with `F` (so never a positional name, nor the shared bare
      counter), `seen[k]` counts the parts that name it. */
  lemma {:induction false} SeenCountsKey(parts: seq<string>, k: string)
    requires k == [] || k[0] != 'F'
    ensures Seen(KvRun(parts).seen, k) == Count(parts, p => NamesKey(k, p))
    decreases |parts|
  {
    if |parts| > 0 {
      SeenCountsKey(parts[..|parts| - 1], k);
      var st := KvRun(parts[..|parts| - 1]);
      var p := parts[|parts| - 1];
      if '=' !in p {
        var bare := Bump(st.seen, "F");
        var name := PositionName(Seen(bare, "F"));
        assert name[0] == 'F';
      }
    }
  }

  /** Assigning keeps every key already present. */
  lemma {:induction false} PutKeepsKeys(d: seq<Field>, key: string, value: string, k: string)
    requires k in Keys(d)
    ensures k in Keys(Put(d, key, value))
    decreases |d|
  {
    if d[0].key != k {
      if d[0].key != key {
        PutKeepsKeys(d[1..], key, value, k);
      } else {
        assert Keys(Put(d, key, value)) == [key] + Keys(d[1..]);
      }
    } else {
      assert Keys(Put(d, key, value))[0] == k;
    }
  }

  lemma KvStepKeepsKeys(st: KvState, p: string, k: string)
    requires k in Keys(st.out)
    ensures k in Keys(KvStep(st, p).out)
  {
    if '=' in p {
      var kp := KeyText(p);
      PutKeepsKeys(st.out, KeyOf(kp, Seen(Bump(st.seen, kp), kp)), ValueText(p), k);
    } else {
      var bare := Bump(st.seen, "F");
      var name := PositionName(Seen(bare, "F"));
      PutKeepsKeys(st.out, KeyOf(name, Seen(Bump(bare, name), name)), p, k);
    }
  }

  lemma {:induction false} KvRunKeepsKeys(parts: seq<string>, n: nat, k: string)
    requires n <= |parts|
    requires k in Keys(KvRun(parts[..n]).out)
    ensures k in Keys(KvRun(parts).out)
    decreases |parts| - n
  {
    if n == |parts| {
      assert parts[..n] == parts;
    } else {
      assert parts[..n + 1][..n] == parts[..n];
      KvStepKeepsKeys(KvRun(parts[..n]), parts[n], k);
      assert KvRun(parts[..n + 1]) == KvStep(KvRun(parts[..n]), parts[n]);
      KvRunKeepsKeys(parts, n + 1, k);
    }
  }

  /** The `n`-th part naming key `k` (for a key not beginning with `F`) is stored under
      `k` when `n` is 1 and under `k#n` after that. */
  lemma RepeatedKey(parts: seq<string>, j: nat)
    requires j < |parts| && '=' in parts[j]
    requires KeyText(parts[j]) == [] || KeyText(parts[j])[0] != 'F'
    ensures var k := KeyText(parts[j]);
      KeyOf(k, Count(parts[..j + 1], p => NamesKey(k, p))) in Keys(KvRun(parts).out)
  {
    var k := KeyText(parts[j]);
    var pre := parts[..j + 1];
    assert pre[..j] == parts[..j];
    SeenCountsKey(pre, k);
    var st := KvRun(parts[..j]);
    var key := KeyOf(k, Seen(Bump(st.seen, k), k));
    PutStores(st.out, key, ValueText(parts[j]));
    KvRunKeepsKeys(parts, j + 1, key);
  }

  /** `Put` always stores the key it assigns. */
  lemma {:induction false} PutStores(d: seq<Field>, key: string, value: string)
    ensures key in Keys(Put(d, key, value))
    decreases |d|
  {
    if |d| > 0 && d[0].key != key {
      PutStores(d[1..], key, value);
      assert Put(d, key, value) == [d[0]] + Put(d[1..], key, value);
    } else {
      assert Keys(Put(d, key, value))[0] == key;
    }
  }

  /** A first part `F=v`: the literal key `F`, counted once. */
  lemma LiteralFirst(v: string)
    requires Strip(v) == v
    ensures KvRun(["F=" + v]) == KvState(map["F" := 1], [Field("F", v)])
  {
    var p := "F=" + v;
    assert KvRun([p]) == KvStep(KvRun([]), p) by {
      var one: seq<string> := [p];
      assert one[..0] == [];
    }
    assert p[1] == '=' && p[0] != '=';
    assert IndexOf(p, '=') == 1 by {
      assert p[1..][0] == '=';
    }
    assert p[..1] == "F" && p[2..] == v;
    PyInt.StripTrimmed("F");
    assert KeyText(p) == "F" && ValueText(p) == v;
  }

  /** A bare part is named after the count kept under `F`: with that count at `n`, and
      the name `F(n+1)` not yet used, it is appended as `F(n+1)`. */
  lemma BarePart(st: KvState, p: string)
    requires '=' !in p
    requires PositionName(Seen(st.seen, "F") + 1) !in st.seen
    requires PositionName(Seen(st.seen, "F") + 1) !in Keys(st.out)
    ensures KvStep(st, p).out == st.out + [Field(PositionName(Seen(st.seen, "F") + 1), p)]
  {
    var name := PositionName(Seen(st.seen, "F") + 1);
    var bare := Bump(st.seen, "F");
    assert name != "F" by {
      assert |name| >= 2;
    }
    assert Seen(Bump(bare, name), name) == 1;
    PutPlace(st.out, name, p);
  }

  /** The bare-part counter is the `seen` entry of the name `F`, so a literal key `F`
      shifts the numbering: in `F=v, x` the bare `x` is stored as `F2`, not `F1`. */
  lemma LiteralFShiftsBareNames(v: string, x: string)
    requires Strip(v) == v && '=' !in x
    ensures KvRun(["F=" + v, x]).out == [Field("F", v), Field("F2", x)]
  {
    TwoParts("F=" + v, x);
    LiteralFirst(v);
    SecondName(v);
    BarePart(KvState(map["F" := 1], [Field("F", v)]), x);
  }

  lemma TwoParts(a: string, b: string)
    ensures KvRun([a, b]) == KvStep(KvRun([a]), b)
  {
    assert [a, b][..1] == [a];
  }

  lemma SecondName(v: string)
    ensures PositionName(Seen(map["F" := 1], "F") + 1) == "F2"
    ensures "F2" !in map["F" := 1] && "F2" !in Keys([Field("F", v)])
  {
    assert NatToString(2) == "2";
  }

  // ------------------------------------------------------------ detect_cng_disp

  /** `detect_cng_disp`: the upper-cased type is `CNG_DISP_STANDARD` or the upper-cased
      payload contains it; the early exit on two empty texts changes nothing. */
  function DetectCng(etype: string, payload: string): (r: bool)
    ensures r <==> Upper(etype) == CngType || Contains(Upper(payload), CngType)
  {
    if payload == [] && etype == [] then false
    else Upper(etype) == CngType || Contains(Upper(payload), CngType)
  }

  /** Detection ignores letter case in both the type and the payload. */
  lemma DetectIgnoresCase(etype: string, payload: string)
    ensures DetectCng(Lower(etype), Lower(payload)) == DetectCng(etype, payload)
  {
    UpperOfLower(etype);
    UpperOfLower(payload);
  }

  // ------------------------------------------------------------- parse_cng_line

  /** `to_int(x) if to_int(x) is not None else x`: an integer when `int()` accepts the
      text, the text otherwise. */
  datatype Value = Int(n: int) | Text(s: string)

  function ToValue(x: string): Value {
    match PyInt.ParseInt(x)
    case Some(n) => Int(n)
    case None => Text(x)
  }

  /** One dispense line: note count, cassette, amount in minor units, result flag, and
      the fields it was read from. */
  datatype CngLine = CngLine(count: Value, cassette: Value, amount: Value, flag: string, raw: seq<string>)

  /** The non-blank comma fields of a line, without a leading `CNG_DISP_STANDARD` word. */
  function CngFields(line: string): seq<string> {
    var parts := Pieces(Split(line, ','));
    if |parts| > 0 && Upper(parts[0]) == CngType then parts[1..] else parts
  }

  /** `parse_cng_line`. */
  function ParseCngLine(line: string): (r: Option<CngLine>)
    ensures r.None? <==> |CngFields(line)| < 4
    ensures r.Some? ==>
      var l := r.value;
      l.raw == CngFields(line) && l.flag == l.raw[3]
      && l.count == ToValue(l.raw[0]) && l.cassette == ToValue(l.raw[1]) && l.amount == ToValue(l.raw[2])
  {
    var parts := Pieces(Split(line, ','));
    if parts == [] then None
    else
      var fields := if Upper(parts[0]) == CngType then parts[1..] else parts;
      if |fields| < 4 then None
      else Some(CngLine(ToValue(fields[0]), ToValue(fields[1]), ToValue(fields[2]), fields[3], fields))
  }

  /** A decimal number never reads as the tag word. */
  lemma NumberNotTag(n: nat)
    ensures Upper(NatToString(n)) != CngType
  {
    assert Upper(NatToString(n))[0] == NatToString(n)[0];
  }

  lemma NumberTrimmed(n: nat)
    ensures NatToString(n) != [] && Strip(NatToString(n)) == NatToString(n) && ',' !in NatToString(n)
  {
    PyInt.StripTrimmed(NatToString(n));
  }

  /** A line written as `count,cassette,amount,flag` from three numbers and a flag that
      is non-blank, trimmed and comma-free reads back as those integers and that flag. */
  lemma CngLineRoundTrip(count: nat, cassette: nat, amount: nat, flag: string)
    requires flag != [] && Strip(flag) == flag && ',' !in flag
    ensures var fields := [NatToString(count), NatToString(cassette), NatToString(amount), flag];
      ParseCngLine(Join(fields, ",")) == Some(CngLine(Int(count), Int(cassette), Int(amount), flag, fields))
  {
    var fields := [NatToString(count), NatToString(cassette), NatToString(amount), flag];
    NumberTrimmed(count);
    NumberTrimmed(cassette);
    NumberTrimmed(amount);
    SplitOfJoin(fields, ',');
    PiecesOfTrimmed(fields);
    NumberNotTag(count);
    PyInt.ParseIntOfNatToString(count);
    PyInt.ParseIntOfNatToString(cassette);
    PyInt.ParseIntOfNatToString(amount);
  }

  /** The tag word in front of the four fields, in any case, is dropped. */
  lemma CngLineTagDropped(tag: string, count: nat, cassette: nat, amount: nat, flag: string)
    requires Upper(tag) == CngType && Strip(tag) == tag && ',' !in tag
    requires flag != [] && Strip(flag) == flag && ',' !in flag
    ensures var fields := [NatToString(count), NatToString(cassette), NatToString(amount), flag];
      ParseCngLine(Join([tag] + fields, ",")) == Some(CngLine(Int(count), Int(cassette), Int(amount), flag, fields))
  {
    var fields := [NatToString(count), NatToString(cassette), NatToString(amount), flag];
    NumberTrimmed(count);
    NumberTrimmed(cassette);
    NumberTrimmed(amount);
    assert tag != [] by {
      assert |Upper(tag)| == |tag|;
    }
    SplitOfJoin([tag] + fields, ',');
    PiecesOfTrimmed([tag] + fields);
    assert ([tag] + fields)[1..] == fields;
    PyInt.ParseIntOfNatToString(count);
    PyInt.ParseIntOfNatToString(cassette);
    PyInt.ParseIntOfNatToString(amount);
  }

  /** `FLAG_MEANINGS.get(str(flag).upper(), "—")`. */
  function FlagMeaning(flag: string): string {
    var f := Upper(flag);
    if f == "O" then "OK / Offered"
    else if f == "R" then "Rejected"
    else if f == "E" then "Error"
    else if f == "C" then "Cancelled"
    else "—"
  }

  // -------------------------------------------------------------- _describe_key

  /** Length of the run of `isdigit()` characters at the start of `k`. */
  function LeadingDigits(k: string): (n: nat)
    ensures n <= |k|
    ensures forall i :: 0 <= i < n ==> PyInt.IsDigit(k[i])
    ensures n < |k| ==> !PyInt.IsDigit(k[n])
    decreases |k|
  {
    if |k| > 0 && PyInt.IsDigit(k[0]) then 1 + LeadingDigits(k[1..]) else 0
  }

  /** The glossary name of a key: a key of two or more characters that starts with a
      digit has its leading digits replaced by `n` (`1STA` becomes `nSTA`). */
  function BaseName(k: string): string {
    if |k| >= 2 && PyInt.IsDigit(k[0]) then "n" + k[LeadingDigits(k)..] else k
  }

  /** The key-folding loop of `_describe_key`. */
  method FoldKey(k: string) returns (base: string)
    ensures base == BaseName(k)
  {
    base := k;
    if |k| >= 2 && PyInt.IsDigit(k[0]) {
      var i := 0;
      while i < |k| && PyInt.IsDigit(k[i])
        invariant i <= LeadingDigits(k)
      {
        i := i + 1;
      }
      base := "n" + k[i..];
    }
  }

  /** The key of cassette `c`'s field `rest` (for instance `12NUM`) folds to `nNUM`. */
  lemma CassetteKeyFolds(c: nat, rest: string)
    requires rest != [] && !PyInt.IsDigit(rest[0])
    ensures BaseName(NatToString(c) + rest) == "n" + rest
  {
    var d := NatToString(c);
    var k := d + rest;
    var n := LeadingDigits(k);
    assert forall i :: 0 <= i < |d| ==> PyInt.IsDigit(k[i]) by {
      forall i | 0 <= i < |d| ensures PyInt.IsDigit(k[i]) {
        assert k[i] == d[i];
      }
    }
    assert k[|d|] == rest[0];
    assert n == |d|;
    assert k[n..] == rest;
  }

  /** What `_describe_key` reports for a key: its glossary entry, a built-in
      CNG_DISP_STANDARD positional label, or that there is no definition. */
  datatype Meaning =
    | FromGlossary(title: string, meaning: string, manualRef: string)
    | CngField(title: string, extra: string)
    | CngFlag(title: string, flagMeaning: string)
    | NoDefinition

  type Glossary = map<string, map<string, string>>

  function Get(info: map<string, string>, name: string, default: string): string {
    if name in info then info[name] else default
  }

  /** `glossary.get(base) or glossary.get(k)`: an empty entry counts as missing. */
  function Entry(g: Glossary, base: string, k: string): map<string, string> {
    if base in g && g[base] != map[] then g[base]
    else if k in g then g[k]
    else map[]
  }

  /** `_describe_key`. */
  function Describe(k: string, v: string, g: Glossary, typeSel: string): Meaning {
    var base := BaseName(k);
    var info := Entry(g, base, k);
    if info != map[] then
      FromGlossary(Get(info, "label", k), Get(info, "meaning", ""), Get(info, "manual_ref", ""))
    else if StartsWith(base, "F") && Upper(typeSel) == CngType then
      var title :=
        if base == "F1" then "NOTE_COUNT" else if base == "F2" then "CASSETTE_ID"
        else if base == "F3" then "AMOUNT_MINOR" else if base == "F4" then "LINE_RESULT" else base;
      if base == "F4" then CngFlag(title, FlagMeaning(v))
      else CngField(title,
        if base == "F3" then "Amount in minor currency units"
        else if base == "F2" then "Cassette source (1..n)" else "Number of notes on this line")
    else NoDefinition
  }

  /** Every cassette's copy of a field is described by the one `n`-form glossary entry,
      whichever cassette number the key carries. */
  lemma CassetteKeysShareEntry(c: nat, rest: string, v: string, g: Glossary, typeSel: string)
    requires rest != [] && !PyInt.IsDigit(rest[0])
    requires "n" + rest in g && "label" in g["n" + rest]
    ensures Describe(NatToString(c) + rest, v, g, typeSel) == Describe("n" + rest, v, g, typeSel)
  {
    CassetteKeyFolds(c, rest);
    var n: string := "n";
    assert !PyInt.IsDigit(n[0]);
    assert ("n" + rest)[0] == 'n';
    assert g["n" + rest] != map[];
  }

  /** A key with no glossary entry outside a CNG_DISP_STANDARD view has no definition,
      and inside one `F4` is described by its flag meaning. */
  lemma DescribeFallbacks(k: string, v: string, g: Glossary, typeSel: string)
    requires Entry(g, BaseName(k), k) == map[]
    ensures Upper(typeSel) != CngType ==> Describe(k, v, g, typeSel) == NoDefinition
    ensures Upper(typeSel) == CngType && k == "F4" ==>
      Describe(k, v, g, typeSel) == CngFlag("LINE_RESULT", FlagMeaning(v))
  {
    if k == "F4" {
      assert !PyInt.IsDigit('F');
      assert BaseName(k) == k;
    }
  }

  // --------------------------------------------------------------- _current_rows

  /** One row of the view: an element (or one of its children) and one payload segment. */
  datatype Row = Row(tag: string, etype: string, date: string, time: string, segment: nat,
                     fields: seq<Field>, raw: string)

  function FieldTexts(fields: seq<Field>): seq<string> {
    seq(|fields|, i requires 0 <= i < |fields| => fields[i].key + "=" + fields[i].value)
  }

  /** The text the filter box searches: date, time, tag, type, raw segment and the
      `key=value` fields, joined by spaces. */
  function Haystack(r: Row): string {
    Join([r.date, r.time, r.tag, r.etype, r.raw, Join(FieldTexts(r.fields), " ")], " ")
  }

  /** The three filters of the view; `"All"` switches a selector off, a blank query
      switches the text filter off. */
  predicate Shown(query: string, tagSel: string, typeSel: string, r: Row) {
    (tagSel == "All" || r.tag == tagSel)
    && (typeSel == "All" || r.etype == typeSel)
    && (Lower(query) == [] || Contains(Lower(Haystack(r)), Lower(query)))
  }

  /** The rows that pass the filters, in their order. */
  function Selected(rows: seq<Row>, query: string, tagSel: string, typeSel: string): seq<Row> {
    Filter(rows, r => Shown(query, tagSel, typeSel, r))
  }

  /** The loaded rows and the current filter settings of the viewer window. */
  class Viewer {
    var allRows: seq<Row>
    var query: string
    var tagSel: string
    var typeSel: string

    constructor ()
      ensures allRows == [] && query == [] && tagSel == "All" && typeSel == "All"
    {
      allRows := [];
      query := [];
      tagSel := "All";
      typeSel := "All";
    }

    /** `_current_rows`: the loaded rows that pass all three filters, in load order. */
    method CurrentRows() returns (out: seq<Row>)
      ensures out == Selected(allRows, query, tagSel, typeSel)
      ensures forall r :: r in out <==> r in allRows && Shown(query, tagSel, typeSel, r)
    {
      var q := Lower(query);
      var rows, text, tagWanted, typeWanted := allRows, query, tagSel, typeSel;
      out := [];
      var i := 0;
      while i < |rows|
        invariant i <= |rows|
        invariant out == Selected(rows[..i], text, tagWanted, typeWanted)
      {
        var r := rows[i];
        assert rows[..i + 1][..i] == rows[..i];
        if (tagWanted == "All" || r.tag == tagWanted) && (typeWanted == "All" || r.etype == typeWanted)
          && (q == [] || Contains(Lower(Haystack(r)), q))
        {
          out := out + [r];
        }
        i := i + 1;
      }
      assert rows[..i] == rows;
      forall r ensures r in out <==> r in rows && Shown(text, tagWanted, typeWanted, r) {
        FilterMembership(rows, r => Shown(text, tagWanted, typeWanted, r), r);
      }
    }
  }

  /** Text found in a row's raw segment is found by the filter box. */
  lemma RawTextFound(r: Row, query: string)
    requires Contains(Lower(r.raw), Lower(query))
    ensures Shown(query, "All", "All", r)
  {
    var rest := Join(FieldTexts(r.fields), " ");
    var front := r.date + " " + r.time + " " + r.tag + " " + r.etype + " ";
    HaystackShape(r);
    LowerAppend(front, r.raw + (" " + rest));
    LowerAppend(r.raw, " " + rest);
    assert Lower(Haystack(r)) == Lower(front) + (Lower(r.raw) + Lower(" " + rest));
    ContainsInfix(Lower(front), Lower(r.raw), Lower(" " + rest), Lower(query));
    AppendAssoc(Lower(front), Lower(r.raw), Lower(" " + rest));
  }

  /** The haystack is the row's leading columns, its raw segment, then its fields. */
  lemma HaystackShape(r: Row)
    ensures Haystack(r) == (r.date + " " + r.time + " " + r.tag + " " + r.etype + " ")
      + (r.raw + (" " + Join(FieldTexts(r.fields), " ")))
  {
    var rest := Join(FieldTexts(r.fields), " ");
    var l := [r.date, r.time, r.tag, r.etype, r.raw, rest];
    assert Join(l[5..], " ") == rest;
    assert Join(l[4..], " ") == r.raw + " " + rest by {
      assert l[4..][1..] == l[5..];
    }
    assert Join(l[3..], " ") == r.etype + " " + Join(l[4..], " ") by {
      assert l[3..][1..] == l[4..];
    }
    assert Join(l[2..], " ") == r.tag + " " + Join(l[3..], " ") by {
      assert l[2..][1..] == l[3..];
    }
    assert Join(l[1..], " ") == r.time + " " + Join(l[2..], " ") by {
      assert l[1..][1..] == l[2..];
    }
    assert Haystack(r) == r.date + " " + Join(l[1..], " ");
  }

  lemma LowerAppend(a: string, b: string)
    ensures Lower(a + b) == Lower(a) + Lower(b)
  {
  }

  /** A text containing `q` keeps containing it inside a longer text. */
  lemma {:induction false} ContainsInfix(a: string, b: string, c: string, q: string)
    requires Contains(b, q)
    ensures Contains(a + b + c, q)
    decreases |a| + |b|
  {
    if |a| > 0 {
      assert (a + b + c)[1..] == a[1..] + b + c;
      ContainsInfix(a[1..], b, c, q);
    } else if q <= b {
      assert a + b + c == b + c;
    } else {
      assert a + b + c == b + c;
      assert (b + c)[1..] == b[1..] + c;
      ContainsInfix([], b[1..], c, q);
      assert [] + b[1..] + c == b[1..] + c;
    }
  }
}
