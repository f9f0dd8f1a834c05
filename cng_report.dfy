/** The CNG_DISP_STANDARD report of the trace viewer (`export_cng_reports`): the detected
    trace elements, one item per dispense line that parses, and the per-transaction and
    per-cassette totals of note counts and minor-unit amounts. */
module CngReport {
  import opened Opt
  import opened PyText
  import opened Seqs
  import opened TraceParse

  /** A trace element at its end event: its (possibly namespaced) tag, its attributes
      and its text. */
  datatype Element = Element(tag: string, attrs: map<string, string>, text: Option<string>)

  /** `elem.attrib.get(name, default)`. */
  function Attr(e: Element, name: string, default: string): string {
    if name in e.attrs then e.attrs[name] else default
  }

  function LocalTag(e: Element): string {
    StripNs(e.tag)
  }

  /** The element type: its `type` attribute, or its tag. */
  function TypeOf(e: Element): string {
    Attr(e, "type", LocalTag(e))
  }

  /** `(elem.text or "").strip()`. */
  function Payload(e: Element): string {
    match e.text
    case None => ""
    case Some(t) => Strip(t)
  }

  /** An element the reporter counts as a transaction. */
  predicate Detected(e: Element) {
    LocalTag(e) in ShownTags && DetectCng(TypeOf(e), Payload(e))
  }

  /** The transaction id `date T time # counter`. */
  function TxnId(date: string, time: string, n: nat): string {
    date + "T" + time + "#" + NatToString(n)
  }

  /** One row of the items report. */
  datatype Item = Item(txn: string, date: string, time: string, tag: string, etype: string,
                       count: Value, cassette: Value, amount: Value, flag: string, flagMeaning: string)

  function LineItem(e: Element, txn: string, l: CngLine): Item {
    Item(txn, Attr(e, "date", ""), Attr(e, "time", ""), LocalTag(e), TypeOf(e),
         l.count, l.cassette, l.amount, l.flag, FlagMeaning(l.flag))
  }

  /** The items of one element: one per segment that parses, in segment order. */
  function SegmentItems(e: Element, txn: string, segs: seq<string>): seq<Item>
    decreases |segs|
  {
    if |segs| == 0 then []
    else
      SegmentItems(e, txn, segs[..|segs| - 1]) + SegmentItem(e, txn, segs[|segs| - 1])
  }

  /** The item of one segment: none when the segment does not parse. */
  function SegmentItem(e: Element, txn: string, seg: string): seq<Item> {
    match ParseCngLine(seg)
    case None => []
    case Some(l) => [LineItem(e, txn, l)]
  }

  /** The items of the `n`-th detected element. */
  function ElementItems(e: Element, n: nat): seq<Item> {
    SegmentItems(e, TxnId(Attr(e, "date", ""), Attr(e, "time", ""), n), SplitPayload(Some(Payload(e))))
  }

  /** All items, element by element in document order. */
  function Items(es: seq<Element>): seq<Item>
    decreases |es|
  {
    if |es| == 0 then []
    else
      var last := es[|es| - 1];
      Items(es[..|es| - 1]) + (if Detected(last) then ElementItems(last, Count(es, Detected)) else [])
  }

  // ------------------------------------------------------------- transaction ids

  /** Index of the last `c` in `s`, or -1. */
  function LastIndex(s: string, c: char): (i: int)
    ensures -1 <= i < |s|
    decreases |s|
  {
    if |s| == 0 then -1
    else if s[|s| - 1] == c then |s| - 1
    else LastIndex(s[..|s| - 1], c)
  }

  lemma {:induction false} LastIndexAfter(p: string, c: char, q: string)
    requires c !in q
    ensures LastIndex(p + [c] + q, c) == |p|
    decreases |q|
  {
    var s := p + [c] + q;
    if |q| > 0 {
      assert s[..|s| - 1] == p + [c] + q[..|q| - 1];
      LastIndexAfter(p, c, q[..|q| - 1]);
    } else {
      assert s[|s| - 1] == c;
    }
  }

  /** The counter part of a transaction id: the text after its last `#`. */
  function CounterText(id: string): string {
    id[LastIndex(id, '#') + 1..]
  }

  /** The counter can be read back from a transaction id. */
  lemma CounterOfTxnId(date: string, time: string, n: nat)
    ensures CounterText(TxnId(date, time, n)) == NatToString(n)
  {
    var d := NatToString(n);
    assert '#' !in d;
    var p := date + "T" + time;
    assert TxnId(date, time, n) == p + ['#'] + d;
    LastIndexAfter(p, '#', d);
  }

  /** Transaction ids with different counters differ, whatever their dates and times. */
  lemma TxnIdsDiffer(d1: string, t1: string, n1: nat, d2: string, t2: string, n2: nat)
    ensures TxnId(d1, t1, n1) == TxnId(d2, t2, n2) ==> n1 == n2
  {
    CounterOfTxnId(d1, t1, n1);
    CounterOfTxnId(d2, t2, n2);
    NatToStringRoundTrip(n1);
    NatToStringRoundTrip(n2);
  }

  /** A later detected element always has a larger counter. */
  lemma CounterGrows(es: seq<Element>, j: nat, k: nat)
    requires j < k < |es| && Detected(es[k])
    ensures Count(es[..j + 1], Detected) < Count(es[..k + 1], Detected)
  {
    CountGrows(es, Detected, j, k);
  }

  /** Two detected elements never share a transaction id. */
  lemma SeparateTransactions(es: seq<Element>, j: nat, k: nat)
    requires j < k < |es| && Detected(es[j]) && Detected(es[k])
    ensures TxnId(Attr(es[j], "date", ""), Attr(es[j], "time", ""), Count(es[..j + 1], Detected))
         != TxnId(Attr(es[k], "date", ""), Attr(es[k], "time", ""), Count(es[..k + 1], Detected))
  {
    CounterGrows(es, j, k);
    TxnIdsDiffer(Attr(es[j], "date", ""), Attr(es[j], "time", ""), Count(es[..j + 1], Detected),
                 Attr(es[k], "date", ""), Attr(es[k], "time", ""), Count(es[..k + 1], Detected));
  }

  // ------------------------------------------------------------------- summaries

  /** `isinstance(x, int)` contributions: an integer adds itself, text adds nothing. */
  function IntOr0(v: Value): int {
    if v.Int? then v.n else 0
  }

  /** One cassette's totals. */
  datatype Tally = Tally(notes: int, amount: int)

  /** One transaction's summary; `cassettes` lists the cassette keys in the order the
      `by_cassette` dictionary received them. */
  datatype Summary = Summary(date: string, time: string, notes: int, amount: int,
                             cassettes: seq<Value>, tallies: map<Value, Tally>)

  /** The `txn_summaries` dictionary: its keys in insertion order and its entries. */
  datatype Ledger = Ledger(order: seq<string>, sums: map<string, Summary>)

  const NewSummary := Summary("", "", 0, 0, [], map[])

  function Tallied(t: map<Value, Tally>, c: Value): Tally {
    if c in t then t[c] else Tally(0, 0)
  }

  /** The updates one item makes to its transaction's summary. A cassette entry appears
      once an integer count or amount is added to it. */
  function Bill(s: Summary, it: Item): Summary {
    var touched := it.count.Int? || it.amount.Int?;
    var t := Tallied(s.tallies, it.cassette);
    var cassettes := if touched && it.cassette !in s.tallies then s.cassettes + [it.cassette] else s.cassettes;
    var tallies :=
      if touched then s.tallies[it.cassette := Tally(t.notes + IntOr0(it.count), t.amount + IntOr0(it.amount))]
      else s.tallies;
    Summary(it.date, it.time, s.notes + IntOr0(it.count), s.amount + IntOr0(it.amount), cassettes, tallies)
  }

  /** One item: its transaction gets a summary (listed last if new), then the item is billed to it. */
  function Post(b: Ledger, it: Item): Ledger {
    var s := if it.txn in b.sums then b.sums[it.txn] else NewSummary;
    var order := if it.txn in b.sums then b.order else b.order + [it.txn];
    Ledger(order, b.sums[it.txn := Bill(s, it)])
  }

  function LedgerOf(items: seq<Item>): Ledger
    decreases |items|
  {
    if |items| == 0 then Ledger([], map[])
    else Post(LedgerOf(items[..|items| - 1]), items[|items| - 1])
  }

  /** Sum of `f` over the items of transaction `id`. */
  function TxnSum(items: seq<Item>, id: string, f: Item -> int): int
    decreases |items|
  {
    if |items| == 0 then 0
    else
      var it := items[|items| - 1];
      TxnSum(items[..|items| - 1], id, f) + (if it.txn == id then f(it) else 0)
  }

  /** Sum of `f` over the items of transaction `id` drawn from cassette `c`. */
  function CassetteSum(items: seq<Item>, id: string, c: Value, f: Item -> int): int
    decreases |items|
  {
    if |items| == 0 then 0
    else
      var it := items[|items| - 1];
      CassetteSum(items[..|items| - 1], id, c, f) + (if it.txn == id && it.cassette == c then f(it) else 0)
  }

  /** The integer note count of an item, or nothing. */
  function ItemNotes(it: Item): int {
    IntOr0(it.count)
  }

  /** The integer amount of an item, or nothing. */
  function ItemAmount(it: Item): int {
    IntOr0(it.amount)
  }

  function TallyNotes(t: Tally): int {
    t.notes
  }

  function TallyAmount(t: Tally): int {
    t.amount
  }

  /** Sum of `f` over the tallies of the listed cassettes. */
  function TallySum(cs: seq<Value>, t: map<Value, Tally>, f: Tally -> int): int
    decreases |cs|
  {
    if |cs| == 0 then 0 else TallySum(cs[..|cs| - 1], t, f) + f(Tallied(t, cs[|cs| - 1]))
  }

  predicate Distinct<T(==)>(s: seq<T>) {
    forall i, j :: 0 <= i < j < |s| ==> s[i] != s[j]
  }

  /** The cassette list names each cassette entry exactly once. */
  ghost predicate WellFormed(s: Summary) {
    Distinct(s.cassettes) && forall c :: c in s.tallies <==> c in s.cassettes
  }

  /** The transaction list names each summary exactly once. */
  ghost predicate Listed(b: Ledger) {
    Distinct(b.order) && forall id :: id in b.sums <==> id in b.order
  }

  function Txns(items: seq<Item>): seq<string> {
    seq(|items|, k requires 0 <= k < |items| => items[k].txn)
  }

  /** There is a summary exactly for each transaction id that has an item, listed once
      each in first-item order. */
  lemma {:induction false} LedgerKeys(items: seq<Item>)
    ensures Listed(LedgerOf(items))
    ensures forall id :: id in LedgerOf(items).sums <==> id in Txns(items)
    decreases |items|
  {
    if |items| > 0 {
      var pre := items[..|items| - 1];
      LedgerKeys(pre);
      assert Txns(items) == Txns(pre) + [items[|items| - 1].txn];
    }
  }

  /** Both reports are written together: a summary exists exactly when an item does. */
  lemma ReportsTogether(items: seq<Item>)
    ensures LedgerOf(items).sums == map[] <==> items == []
  {
    LedgerKeys(items);
    if items != [] {
      assert items[0].txn == Txns(items)[0];
    }
  }

  /** A transaction's totals are the sums of its items' integer counts and amounts. */
  lemma {:induction false} LedgerTotals(items: seq<Item>, id: string)
    requires id in LedgerOf(items).sums
    ensures LedgerOf(items).sums[id].notes == TxnSum(items, id, ItemNotes)
    ensures LedgerOf(items).sums[id].amount == TxnSum(items, id, ItemAmount)
    decreases |items|
  {
    var pre := items[..|items| - 1];
    var it := items[|items| - 1];
    if id in LedgerOf(pre).sums {
      LedgerTotals(pre, id);
    } else if id == it.txn {
      LedgerKeys(pre);
      NoItemsNoSum(pre, id);
    }
  }

  /** Items of another transaction contribute nothing. */
  lemma {:induction false} NoItemsNoSum(items: seq<Item>, id: string)
    requires id !in Txns(items)
    ensures TxnSum(items, id, ItemNotes) == 0
    ensures TxnSum(items, id, ItemAmount) == 0
    ensures forall c :: CassetteSum(items, id, c, ItemNotes) == 0
    ensures forall c :: CassetteSum(items, id, c, ItemAmount) == 0
    decreases |items|
  {
    if |items| > 0 {
      var pre := items[..|items| - 1];
      assert Txns(items) == Txns(pre) + [items[|items| - 1].txn];
      NoItemsNoSum(pre, id);
    }
  }

  /** A cassette's tally is the sum of the integer counts and amounts of the
      transaction's items drawn from that cassette. */
  lemma {:induction false} CassetteTotals(items: seq<Item>, id: string, c: Value)
    requires id in LedgerOf(items).sums
    ensures Tallied(LedgerOf(items).sums[id].tallies, c).notes
      == CassetteSum(items, id, c, ItemNotes)
    ensures Tallied(LedgerOf(items).sums[id].tallies, c).amount
      == CassetteSum(items, id, c, ItemAmount)
    decreases |items|
  {
    var pre := items[..|items| - 1];
    var it := items[|items| - 1];
    var b := LedgerOf(pre);
    if id in b.sums {
      CassetteTotals(pre, id, c);
    } else if id == it.txn {
      LedgerKeys(pre);
      NoItemsNoSum(pre, id);
    }
    if id == it.txn {
      BillTally(if id in b.sums then b.sums[id] else NewSummary, it, c);
    }
  }

  /** Billing an item adds its integer count and amount to its own cassette only. */
  lemma BillTally(s: Summary, it: Item, c: Value)
    ensures Tallied(Bill(s, it).tallies, c).notes
      == Tallied(s.tallies, c).notes + (if it.cassette == c then ItemNotes(it) else 0)
    ensures Tallied(Bill(s, it).tallies, c).amount
      == Tallied(s.tallies, c).amount + (if it.cassette == c then ItemAmount(it) else 0)
  {
  }

  /** Changing the tally of a cassette outside the list changes no listed sum. */
  lemma {:induction false} TallySumOutside(cs: seq<Value>, t: map<Value, Tally>, c: Value, x: Tally, f: Tally -> int)
    requires c !in cs
    ensures TallySum(cs, t[c := x], f) == TallySum(cs, t, f)
    decreases |cs|
  {
    if |cs| > 0 {
      TallySumOutside(cs[..|cs| - 1], t, c, x, f);
    }
  }

  /** Changing the tally of a cassette listed once changes the sum by the difference. */
  lemma {:induction false} TallySumInside(cs: seq<Value>, t: map<Value, Tally>, c: Value, x: Tally, f: Tally -> int)
    requires Distinct(cs) && c in cs
    ensures TallySum(cs, t[c := x], f) == TallySum(cs, t, f) - f(Tallied(t, c)) + f(x)
    decreases |cs|
  {
    var pre := cs[..|cs| - 1];
    if cs[|cs| - 1] == c {
      assert c !in pre by {
        forall i | 0 <= i < |pre| ensures pre[i] != c {
          assert pre[i] == cs[i];
        }
      }
      TallySumOutside(pre, t, c, x, f);
    } else {
      assert Distinct(pre);
      assert c in pre;
      TallySumInside(pre, t, c, x, f);
    }
  }

  /** The cassette tallies of a summary add up to its totals. */
  ghost predicate AddsUp(s: Summary) {
    WellFormed(s)
    && TallySum(s.cassettes, s.tallies, TallyNotes) == s.notes
    && TallySum(s.cassettes, s.tallies, TallyAmount) == s.amount
  }

  /** Billing an item keeps a summary well formed and its tallies adding up. */
  lemma BillKeepsSums(s: Summary, it: Item)
    requires AddsUp(s)
    ensures AddsUp(Bill(s, it))
  {
    if it.count.Int? || it.amount.Int? {
      if it.cassette in s.tallies {
        BillKnownCassette(s, it);
      } else {
        BillNewCassette(s, it);
      }
    }
  }

  lemma BillKnownCassette(s: Summary, it: Item)
    requires AddsUp(s) && it.cassette in s.tallies
    ensures AddsUp(Bill(s, it))
  {
    var c := it.cassette;
    var t := Tallied(s.tallies, c);
    var x := Tally(t.notes + IntOr0(it.count), t.amount + IntOr0(it.amount));
    TallySumInside(s.cassettes, s.tallies, c, x, TallyNotes);
    TallySumInside(s.cassettes, s.tallies, c, x, TallyAmount);
  }

  lemma BillNewCassette(s: Summary, it: Item)
    requires AddsUp(s) && it.cassette !in s.tallies && (it.count.Int? || it.amount.Int?)
    ensures AddsUp(Bill(s, it))
  {
    var c := it.cassette;
    var x := Tally(IntOr0(it.count), IntOr0(it.amount));
    assert c !in s.cassettes;
    assert Bill(s, it).cassettes == s.cassettes + [c] && Bill(s, it).tallies == s.tallies[c := x];
    NewCassetteSum(s.cassettes, s.tallies, c, x, TallyNotes);
    NewCassetteSum(s.cassettes, s.tallies, c, x, TallyAmount);
    DistinctSnoc(s.cassettes, c);
  }

  /** A cassette added last, with tally `x`, adds `x` to the sum. */
  lemma NewCassetteSum(cs: seq<Value>, t: map<Value, Tally>, c: Value, x: Tally, f: Tally -> int)
    requires c !in cs
    ensures TallySum(cs + [c], t[c := x], f) == TallySum(cs, t, f) + f(x)
  {
    TallySumOutside(cs, t, c, x, f);
    TallySnoc(cs, t[c := x], c, f);
    assert Tallied(t[c := x], c) == x;
  }

  lemma TallySnoc(cs: seq<Value>, t: map<Value, Tally>, c: Value, f: Tally -> int)
    ensures TallySum(cs + [c], t, f) == TallySum(cs, t, f) + f(Tallied(t, c))
  {
    assert (cs + [c])[..|cs|] == cs;
  }

  lemma DistinctSnoc<T>(s: seq<T>, x: T)
    requires Distinct(s) && x !in s
    ensures Distinct(s + [x])
  {
    var r := s + [x];
    forall i, j | 0 <= i < j < |r| ensures r[i] != r[j] {
      assert r[i] == s[i];
      if j < |s| {
        assert r[j] == s[j];
      }
    }
  }

  /** Every summary's cassette tallies add up to its transaction totals. */
  lemma {:induction false} CassettesAddUp(items: seq<Item>, id: string)
    requires id in LedgerOf(items).sums
    ensures AddsUp(LedgerOf(items).sums[id])
    decreases |items|
  {
    var pre := items[..|items| - 1];
    var it := items[|items| - 1];
    var b := LedgerOf(pre);
    if id in b.sums {
      CassettesAddUp(pre, id);
    }
    if id == it.txn {
      BillKeepsSums(if it.txn in b.sums then b.sums[it.txn] else NewSummary, it);
    }
  }

  // ---------------------------------------------------------------- the exporter

  /** The summary update for one item, in place on the two dictionaries. */
  method PostItem(b: Ledger, it: Item) returns (r: Ledger)
    ensures r == Post(b, it)
  {
    var order, sums := b.order, b.sums;
    if it.txn !in sums {
      order := order + [it.txn];
      sums := sums[it.txn := NewSummary];
    }
    var s := sums[it.txn];
    var c := it.cassette;
    if it.count.Int? || it.amount.Int? {
      var t := Tallied(s.tallies, c);
      if c !in s.tallies {
        s := s.(cassettes := s.cassettes + [c]);
      }
      s := s.(tallies := s.tallies[c := Tally(t.notes + IntOr0(it.count), t.amount + IntOr0(it.amount))]);
    }
    s := s.(date := it.date, time := it.time, notes := s.notes + IntOr0(it.count), amount := s.amount + IntOr0(it.amount));
    r := Ledger(order, sums[it.txn := s]);
  }

  lemma LedgerSnoc(items: seq<Item>, it: Item)
    ensures LedgerOf(items + [it]) == Post(LedgerOf(items), it)
  {
    assert (items + [it])[..|items|] == items;
  }

  lemma SegmentItemsSnoc(e: Element, txn: string, segs: seq<string>, j: nat)
    requires j < |segs|
    ensures SegmentItems(e, txn, segs[..j + 1]) == SegmentItems(e, txn, segs[..j]) + SegmentItem(e, txn, segs[j])
  {
    assert segs[..j + 1][..j] == segs[..j];
  }

  /** The segment loop of one detected element. */
  method AddSegments(e: Element, txn: string, segs: seq<string>, items0: seq<Item>, book0: Ledger)
    returns (items: seq<Item>, book: Ledger)
    requires book0 == LedgerOf(items0)
    ensures items == items0 + SegmentItems(e, txn, segs)
    ensures book == LedgerOf(items)
  {
    items, book := items0, book0;
    var j := 0;
    while j < |segs|
      invariant j <= |segs|
      invariant items == items0 + SegmentItems(e, txn, segs[..j])
      invariant book == LedgerOf(items)
    {
      SegmentItemsSnoc(e, txn, segs, j);
      AppendAssoc(items0, SegmentItems(e, txn, segs[..j]), SegmentItem(e, txn, segs[j]));
      items, book := AddSegment(e, txn, segs[j], items, book);
      j := j + 1;
    }
    assert segs[..j] == segs;
  }

  /** One pass of the segment loop: a segment that parses becomes an item, posted
      to its transaction's summary. */
  method AddSegment(e: Element, txn: string, seg: string, items0: seq<Item>, book0: Ledger)
    returns (items: seq<Item>, book: Ledger)
    requires book0 == LedgerOf(items0)
    ensures items == items0 + SegmentItem(e, txn, seg)
    ensures book == LedgerOf(items)
  {
    items, book := items0, book0;
    var parsed := ParseCngLine(seg);
    if parsed.Some? {
      var it := LineItem(e, txn, parsed.value);
      LedgerSnoc(items, it);
      book := PostItem(book, it);
      items := items + [it];
    } else {
      assert items0 + SegmentItem(e, txn, seg) == items0;
    }
  }

  /** `export_cng_reports`, without the file writing: the items, the summaries, and
      whether each of the two report files is written. */
  method ExportCng(elements: seq<Element>)
    returns (items: seq<Item>, book: Ledger, itemsFile: bool, summaryFile: bool)
    ensures items == Items(elements)
    ensures book == LedgerOf(items)
    ensures itemsFile <==> items != []
    ensures summaryFile <==> items != []
  {
    items, book := [], Ledger([], map[]);
    var counter := 0;
    var i := 0;
    while i < |elements|
      invariant i <= |elements|
      invariant counter == Count(elements[..i], Detected)
      invariant items == Items(elements[..i])
      invariant book == LedgerOf(items)
    {
      var e := elements[i];
      assert elements[..i + 1][..i] == elements[..i];
      var tag := StripNs(e.tag);
      if tag in ShownTags {
        var etype := Attr(e, "type", tag);
        var payload := Payload(e);
        if DetectCng(etype, payload) {
          counter := counter + 1;
          var txn := Attr(e, "date", "") + "T" + Attr(e, "time", "") + "#" + NatToString(counter);
          items, book := AddSegments(e, txn, SplitPayload(Some(payload)), items, book);
        }
      }
      i := i + 1;
    }
    assert elements[..i] == elements;
    itemsFile := items != [];
    summaryFile := book.sums != map[];
    ReportsTogether(items);
  }
}
