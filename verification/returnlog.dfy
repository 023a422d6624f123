/** The return log: the lines `log_return` appends for each return, and
    `relog_latest`, which reads them back newest-first and answers the two
    latest return records for the exchange wizard. The log file is taken
    as the sequence of lines it holds, in file order. */
module ReturnLog {
  import opened Shapes
  import opened Text

  /** One call of `log_return`: timestamp, staff name, identity, channel,
      refund total and the returned items. */
  datatype ReturnEntry = ReturnEntry(time: string, staff: string, identity: string, channel: string,
                                     total: int, items: seq<Item>)

  /** The marker that makes a line a return header ("return/exchange"). */
  const Marker := "【退/換貨】"

  /** The line between a header and its items ("returned:"). */
  const ReturnedLine := "退回：\n"

  // ---------------------------------------------------------------------
  // Writing: log_return
  // ---------------------------------------------------------------------

  /** Python's `f"{size}"`: a size is written as itself and a null size as
      `None`, so the text is one word whenever the size is. */
  function SizeText(size: Option<string>): (t: string)
    ensures size.Some? ==> t == size.value
    ensures (size.None? || IsWord(size.value)) ==> IsWord(t)
  {
    match size
    case None => "None"
    case Some(s) => s
  }

  /** ` - {name} {size} x-{qty}` and a newline. */
  function ItemLine(it: Item): string
  {
    " - " + it.name + " " + SizeText(it.size) + " x-" + IntToString(it.qty) + "\n"
  }

  /** `[{time}] 【退/換貨】{staff} 身分:{identity} 通路:{channel} 退還金額：$-{total}`
      and a newline. */
  function HeaderLine(e: ReturnEntry): string
  {
    "[" + e.time + "] " + Marker + HeaderDetails(e)
  }

  /** `{staff} 身分:{identity} 通路:{channel} 退還金額：$-{total}` and a newline. */
  function HeaderDetails(e: ReturnEntry): string
  {
    e.staff + " 身分:" + e.identity + " 通路:" + e.channel + " 退還金額：$-" + IntToString(e.total) + "\n"
  }

  function ItemLines(items: seq<Item>): seq<string>
  {
    seq(|items|, k requires 0 <= k < |items| => ItemLine(items[k]))
  }

  /** The lines one return appends: header, "returned:", one line per item. */
  function EntryLines(e: ReturnEntry): seq<string>
  {
    [HeaderLine(e), ReturnedLine] + ItemLines(e.items)
  }

  /** The whole log, entries in the order they were written. */
  function LogLines(entries: seq<ReturnEntry>): seq<string>
  {
    if entries == [] then [] else EntryLines(entries[0]) + LogLines(entries[1..])
  }

  // ---------------------------------------------------------------------
  // Reading: relog_latest
  // ---------------------------------------------------------------------

  /** `line.startswith('[') and '【退/換貨】' in line`. */
  predicate IsHeader(line: string)
  {
    StartsWith(line, "[") && Includes(line, Marker)
  }

  predicate IsItemLine(line: string)
  {
    StartsWith(line, " - ")
  }

  /** `line.split(']')[0][1:]`. */
  function HeaderTime(line: string): string
  {
    DropPrefix(Before(line, ']'), 1)
  }

  /** `parts = line.strip().split()`, then `parts[1]`, `parts[2]` and
      `int(parts[3][2:])`; None where Python raises (fewer than four
      words, or a quantity that is not an integer). The size read back is
      always a string. */
  function ParseItemLine(line: string): Option<Item>
  {
    var parts := Words(line);
    if |parts| < 4 then None
    else match ParseInt(DropPrefix(parts[3], 2))
      case None => None
      case Some(q) => Some(Item(parts[1], Some(parts[2]), q))
  }

  /** The loop state: the records finished so far and the one being filled. */
  datatype ScanState = ScanState(logs: seq<ReturnRecord>, current: Option<ReturnRecord>)

  const Start := ScanState([], None)

  /** One turn of the loop on a line (None where it raises): a header
      finishes the current record and opens a new one with no items; an
      item line, when a record is open, is added to it; any other line is
      skipped. */
  function Step(st: ScanState, line: string): Option<ScanState>
  {
    if IsHeader(line) then
      var logs := if st.current.Some? then st.logs + [st.current.value] else st.logs;
      Some(ScanState(logs, Some(ReturnRecord(HeaderTime(line), []))))
    else if IsItemLine(line) && st.current.Some? then
      match ParseItemLine(line)
      case None => None
      case Some(it) =>
        var c := st.current.value;
        Some(st.(current := Some(c.(items := c.items + [it]))))
    else Some(st)
  }

  /** The loop over `reversed(lines)`: the last line is taken first, then
      the lines before it. */
  function Replay(st: ScanState, lines: seq<string>): Option<ScanState>
    decreases |lines|
  {
    if lines == [] then Some(st)
    else match Step(st, lines[|lines| - 1])
      case None => None
      case Some(s) => Replay(s, lines[..|lines| - 1])
  }

  /** `logs[:2]`. */
  function TakeTwo(logs: seq<ReturnRecord>): (r: seq<ReturnRecord>)
    ensures |r| == if |logs| < 2 then |logs| else 2
    ensures r <= logs
  {
    if |logs| <= 2 then logs else logs[..2]
  }

  /** What `relog_latest` answers for the lines of the log; None where it
      raises. */
  function Latest(lines: seq<string>): Option<seq<ReturnRecord>>
  {
    match Replay(Start, lines)
    case None => None
    case Some(st) => Some(TakeTwo(if st.current.Some? then st.logs + [st.current.value] else st.logs))
  }

  lemma {:induction false} ReplayAppend(st: ScanState, a: seq<string>, b: seq<string>)
    ensures Replay(st, a + b) ==
      match Replay(st, b)
      case None => None
      case Some(s) => Replay(s, a)
    decreases |b|
  {
    if b == [] {
      assert a + b == a;
    } else {
      var n := |b| - 1;
      assert (a + b)[..|a + b| - 1] == a + b[..n];
      assert (a + b)[|a + b| - 1] == b[n];
      match Step(st, b[n])
      case None =>
      case Some(s) => ReplayAppend(s, a, b[..n]);
    }
  }

  /** `relog_latest`: walk the lines from the last to the first with a
      mutable current record, then answer the first two records. */
  method RelogLatest(lines: seq<string>) returns (result: Option<seq<ReturnRecord>>)
    ensures result == Latest(lines)
    ensures result.Some? ==> |result.value| <= 2
  {
    var logs: seq<ReturnRecord> := [];
    var current: Option<ReturnRecord> := None;
    var i := |lines|;
    assert lines[..i] == lines;
    while i > 0
      invariant 0 <= i <= |lines|
      invariant Replay(Start, lines) == Replay(ScanState(logs, current), lines[..i])
    {
      assert lines[..i][..i - 1] == lines[..i - 1];
      i := i - 1;
      var line := lines[i];
      if IsHeader(line) {
        if current.Some? {
          logs := logs + [current.value];
        }
        current := Some(ReturnRecord(HeaderTime(line), []));
      } else if IsItemLine(line) && current.Some? {
        var parsed := ParseItemLine(line);
        if parsed.None? {
          return None;
        }
        current := Some(current.value.(items := current.value.items + [parsed.value]));
      }
    }
    if current.Some? {
      logs := logs + [current.value];
    }
    result := Some(TakeTwo(logs));
  }

  // ---------------------------------------------------------------------
  // Round trips of single lines
  // ---------------------------------------------------------------------

  /** A name or size that `split()` gives back as one word. */
  predicate IsWord(s: string)
  {
    s != [] && NoPySpace(s)
  }

  /** An item whose line reads back: its name and size are single words. */
  predicate Loggable(it: Item)
  {
    IsWord(it.name) && IsWord(SizeText(it.size))
  }

  /** The item as `relog_latest` reads it back: the size becomes the text
      that was written, so a null size comes back as the string "None". */
  function Echo(it: Item): Item
  {
    Item(it.name, Some(SizeText(it.size)), it.qty)
  }

  lemma WordsOfSpaceWord(w: string, rest: string)
    requires IsWord(w)
    requires rest == [] || IsPySpace(rest[0])
    ensures Words(" " + w + rest) == [w] + Words(rest)
  {
    assert " " + w + rest == [' '] + (w + rest);
    WordsOfSpace(' ', w + rest);
    WordsOfWord(w, rest);
  }

  /** An item line parses back to the item's name, the written size and
      the quantity. */
  lemma ItemLineRoundTrip(it: Item)
    requires Loggable(it)
    ensures ParseItemLine(ItemLine(it)) == Some(Echo(it))
  {
    var q := IntToString(it.qty);
    var xq := "x-" + q;
    assert IsWord(xq) by {
      assert forall k :: 0 <= k < |xq| ==> xq[k] == (if k < 2 then "x-"[k] else q[k - 2]);
    }
    ItemLineText(it, xq);
    ItemLineWords(it.name, SizeText(it.size), xq);
    assert DropPrefix(xq, 2) == q;
    ParseIntRoundTrip(it.qty);
  }

  /** The item line, regrouped as single spaces each followed by a word. */
  lemma ItemLineText(it: Item, xq: string)
    requires xq == "x-" + IntToString(it.qty)
    ensures ItemLine(it) == " " + "-" + (" " + it.name + (" " + SizeText(it.size) + (" " + xq + "\n")))
  {
  }

  /** `split()` of an item line with single-word fields. */
  lemma ItemLineWords(n: string, s: string, xq: string)
    requires IsWord(n) && IsWord(s) && IsWord(xq)
    ensures Words(" " + "-" + (" " + n + (" " + s + (" " + xq + "\n")))) == ["-", n, s, xq]
  {
    var r3 := " " + xq + "\n";
    var r2 := " " + s + r3;
    var r1 := " " + n + r2;
    assert Words(r3) == [xq] by {
      WordsOfSpace('\n', []);
      assert "\n" == ['\n'] + [];
      WordsOfSpaceWord(xq, "\n");
    }
    assert Words(r2) == [s, xq] by {
      WordsOfSpaceWord(s, r3);
    }
    assert Words(r1) == [n, s, xq] by {
      WordsOfSpaceWord(n, r2);
    }
    assert IsWord("-");
    WordsOfSpaceWord("-", r1);
  }

  /** A header line is recognised as one and gives back its timestamp,
      when the timestamp holds no `]`. */
  lemma HeaderRoundTrip(e: ReturnEntry)
    requires ']' !in e.time
    ensures IsHeader(HeaderLine(e))
    ensures HeaderTime(HeaderLine(e)) == e.time
  {
    var h := HeaderLine(e);
    var a := "[" + e.time;
    var b := " " + Marker + HeaderDetails(e);
    assert h == a + [']'] + b;
    assert StartsWith(h, "[") by {
      assert h[0] == '[';
    }
    assert Includes(h, Marker) by {
      assert OccursAt(h, Marker, |a| + 2) by {
        assert h == (a + "] ") + Marker + HeaderDetails(e);
      }
    }
    assert ']' !in a by {
      assert a == ['['] + e.time;
    }
    BeforeFirst(a, ']', b);
    assert DropPrefix(a, 1) == e.time;
  }

  /** Neither the "returned:" line nor an item line is a header; an item
      line is taken as one. */
  lemma OtherLinesAreNotHeaders(it: Item)
    ensures !IsHeader(ReturnedLine) && !IsItemLine(ReturnedLine)
    ensures !IsHeader(ItemLine(it)) && IsItemLine(ItemLine(it))
  {
    assert ReturnedLine[0] == '退';
    var l := ItemLine(it);
    assert l == " - " + (it.name + " " + SizeText(it.size) + " x-" + IntToString(it.qty) + "\n");
    assert l[0] == ' ';
  }

  // ---------------------------------------------------------------------
  // The whole log, as written
  // ---------------------------------------------------------------------

  /** A return whose lines read back: a timestamp without `]` and items
      whose names and sizes are single words. */
  predicate LoggableEntry(e: ReturnEntry)
  {
    ']' !in e.time && forall k :: 0 <= k < |e.items| ==> Loggable(e.items[k])
  }

  /** The read-back items in order. */
  function EchoAll(items: seq<Item>): seq<Item>
  {
    seq(|items|, k requires 0 <= k < |items| => Echo(items[k]))
  }

  function Reversed(s: seq<Item>): seq<Item>
  {
    seq(|s|, k requires 0 <= k < |s| => s[|s| - 1 - k])
  }

  lemma ReversedAfter(head: seq<Item>, s: seq<Item>)
    requires s != []
    ensures head + [s[|s| - 1]] + Reversed(s[..|s| - 1]) == head + Reversed(s)
  {
    var m := |s| - 1;
    var r := Reversed(s[..m]);
    forall k | 0 <= k < m
      ensures r[k] == Reversed(s)[k + 1]
    {
    }
    assert Reversed(s) == [s[m]] + r;
  }

  lemma PendingAfter(s: seq<Item>, tail: seq<Item>)
    requires s != []
    ensures s[..|s| - 1] + ([s[|s| - 1]] + tail) == s + tail
  {
    assert s == s[..|s| - 1] + [s[|s| - 1]];
  }

  /** Each line is an item line, not a header, and reads back as the
      matching item. */
  ghost predicate ReadsAs(lines: seq<string>, parsed: seq<Item>)
  {
    |lines| == |parsed| &&
    forall k :: 0 <= k < |lines| ==>
      !IsHeader(lines[k]) && IsItemLine(lines[k]) && ParseItemLine(lines[k]) == Some(parsed[k])
  }

  lemma ItemLinesReadBack(items: seq<Item>)
    requires forall k :: 0 <= k < |items| ==> Loggable(items[k])
    ensures ReadsAs(ItemLines(items), EchoAll(items))
  {
    forall k | 0 <= k < |items|
      ensures !IsHeader(ItemLine(items[k])) && IsItemLine(ItemLine(items[k]))
      ensures ParseItemLine(ItemLine(items[k])) == Some(Echo(items[k]))
    {
      OtherLinesAreNotHeaders(items[k]);
      ItemLineRoundTrip(items[k]);
    }
  }

  lemma ReadsAsPrefix(lines: seq<string>, parsed: seq<Item>, m: nat)
    requires ReadsAs(lines, parsed) && m <= |lines|
    ensures ReadsAs(lines[..m], parsed[..m])
  {
  }

  /** With no record open, lines that are not headers are skipped,
      parsable or not. */
  lemma {:induction false} SkipLines(logs: seq<ReturnRecord>, lines: seq<string>)
    requires forall k :: 0 <= k < |lines| ==> !IsHeader(lines[k])
    ensures Replay(ScanState(logs, None), lines) == Some(ScanState(logs, None))
    decreases |lines|
  {
    if lines != [] {
      var m := |lines| - 1;
      assert forall k :: 0 <= k < m ==> lines[..m][k] == lines[k];
      SkipLines(logs, lines[..m]);
    }
  }

  /** With a record open, item lines are added to it, last line first. */
  lemma {:induction false} AddLines(logs: seq<ReturnRecord>, c: ReturnRecord, lines: seq<string>, parsed: seq<Item>)
    requires ReadsAs(lines, parsed)
    ensures Replay(ScanState(logs, Some(c)), lines)
         == Some(ScanState(logs, Some(c.(items := c.items + Reversed(parsed)))))
    decreases |lines|
  {
    if lines == [] {
      assert c.items + [] == c.items;
    } else {
      var m := |lines| - 1;
      var c' := c.(items := c.items + [parsed[m]]);
      assert Step(ScanState(logs, Some(c)), lines[m]) == Some(ScanState(logs, Some(c'))) by {
        assert !IsHeader(lines[m]) && IsItemLine(lines[m]) && ParseItemLine(lines[m]) == Some(parsed[m]);
      }
      ReversedAfter(c.items, parsed);
      ReadsAsPrefix(lines, parsed, m);
      AddLines(logs, c', lines[..m], parsed[..m]);
    }
  }

  /** A header and the "returned:" line after it, for either parser: the
      header closes what was open and starts a record with its own time. */
  lemma HeaderBlock(st: ScanState, ps: PendingState, e: ReturnEntry)
    requires ']' !in e.time
    ensures Replay(st, [HeaderLine(e), ReturnedLine]) ==
      Some(ScanState(if st.current.Some? then st.logs + [st.current.value] else st.logs,
                     Some(ReturnRecord(e.time, []))))
    ensures ReplayFixed(ps, [HeaderLine(e), ReturnedLine]) ==
      Some(PendingState(ps.logs + [ReturnRecord(e.time, ps.pending)], []))
  {
    HeaderRoundTrip(e);
    OtherLinesAreNotHeaders(Item("", None, 0));
    var h := HeaderLine(e);
    assert [h, ReturnedLine][..1] == [h] && [h][..0] == [];
    assert Replay(st, [h, ReturnedLine]) == Replay(st, [h]);
    assert ReplayFixed(ps, [h, ReturnedLine]) == ReplayFixed(ps, [h]);
  }

  /** The records `relog_latest` builds from a non-empty log, before the
      oldest is added: newest first, each header carrying the items of the
      return written just before it, in reverse order. */
  function AsWrittenLogs(entries: seq<ReturnEntry>): seq<ReturnRecord>
    requires entries != []
  {
    if |entries| == 1 then []
    else AsWrittenLogs(entries[1..]) + [ReturnRecord(entries[1].time, Reversed(EchoAll(entries[0].items)))]
  }

  /** All records as written: the oldest return comes last, with no items. */
  function AsWrittenRecords(entries: seq<ReturnEntry>): seq<ReturnRecord>
  {
    if entries == [] then [] else AsWrittenLogs(entries) + [ReturnRecord(entries[0].time, [])]
  }

  lemma {:induction false} ReplayLog(entries: seq<ReturnEntry>)
    requires entries != []
    requires forall k :: 0 <= k < |entries| ==> LoggableEntry(entries[k])
    ensures Replay(Start, LogLines(entries))
         == Some(ScanState(AsWrittenLogs(entries), Some(ReturnRecord(entries[0].time, []))))
    decreases |entries|
  {
    var e := entries[0];
    var rest := entries[1..];
    var h := [HeaderLine(e), ReturnedLine];
    var items := ItemLines(e.items);
    assert LoggableEntry(e);
    ItemLinesReadBack(e.items);
    if rest == [] {
      assert Replay(Start, LogLines(entries)) == Replay(Start, EntryLines(e)) by {
        assert LogLines(rest) == [];
        assert LogLines(entries) == EntryLines(e) + LogLines(rest);
        assert EntryLines(e) + [] == EntryLines(e);
      }
      assert Replay(Start, EntryLines(e)) == Replay(Start, h) by {
        SkipLines([], items);
        assert EntryLines(e) == h + items;
        ReplayAppend(Start, h, items);
      }
      HeaderBlock(Start, PendingState([], []), e);
    } else {
      var st := ScanState(AsWrittenLogs(rest), Some(ReturnRecord(rest[0].time, [])));
      assert Replay(Start, LogLines(entries)) == Replay(st, EntryLines(e)) by {
        assert forall k :: 0 <= k < |rest| ==> rest[k] == entries[k + 1];
        ReplayLog(rest);
        ReplayAppend(Start, EntryLines(e), LogLines(rest));
      }
      var done := Reversed(EchoAll(e.items));
      var filled := ScanState(st.logs, Some(ReturnRecord(rest[0].time, done)));
      assert Replay(st, EntryLines(e)) == Replay(filled, h) by {
        var c := ReturnRecord(rest[0].time, []);
        AddLines(st.logs, c, items, EchoAll(e.items));
        assert c.(items := c.items + done) == ReturnRecord(rest[0].time, done);
        assert EntryLines(e) == h + items;
        ReplayAppend(st, h, items);
      }
      HeaderBlock(filled, PendingState([], []), e);
      assert AsWrittenLogs(entries) == st.logs + [ReturnRecord(rest[0].time, done)];
    }
  }

  /** What `relog_latest` answers for a log it can read: the two newest
      headers, the newest carrying the items of the return before it, in
      reverse order, and the oldest record carrying none. */
  lemma LatestOfLog(entries: seq<ReturnEntry>)
    requires forall k :: 0 <= k < |entries| ==> LoggableEntry(entries[k])
    ensures Latest(LogLines(entries)) == Some(TakeTwo(AsWrittenRecords(entries)))
  {
    if entries != [] {
      ReplayLog(entries);
    }
  }

  // ---------------------------------------------------------------------
  // The intended reading, and a parser that gives it
  // ---------------------------------------------------------------------

  /** The records a reader of the log expects: newest first, each with its
      own items in the order they were written. */
  function Intended(entries: seq<ReturnEntry>): (r: seq<ReturnRecord>)
    ensures |r| == |entries|
    ensures forall k :: 0 <= k < |entries| ==>
      r[k] == ReturnRecord(entries[|entries| - 1 - k].time, EchoAll(entries[|entries| - 1 - k].items))
  {
    if entries == [] then []
    else Intended(entries[1..]) + [ReturnRecord(entries[0].time, EchoAll(entries[0].items))]
  }

  /** The loop state of the corrected parser: the finished records and the
      items met since the last header, in file order. */
  datatype PendingState = PendingState(logs: seq<ReturnRecord>, pending: seq<Item>)

  /** One turn of the corrected loop: item lines are collected before
      their header is met; a header takes the collected items. */
  function FixedStep(st: PendingState, line: string): Option<PendingState>
  {
    if IsHeader(line) then
      Some(PendingState(st.logs + [ReturnRecord(HeaderTime(line), st.pending)], []))
    else if IsItemLine(line) then
      match ParseItemLine(line)
      case None => None
      case Some(it) => Some(st.(pending := [it] + st.pending))
    else Some(st)
  }

  /** The corrected loop over `reversed(lines)`. */
  function ReplayFixed(st: PendingState, lines: seq<string>): Option<PendingState>
    decreases |lines|
  {
    if lines == [] then Some(st)
    else match FixedStep(st, lines[|lines| - 1])
      case None => None
      case Some(s) => ReplayFixed(s, lines[..|lines| - 1])
  }

  lemma {:induction false} ReplayFixedAppend(st: PendingState, a: seq<string>, b: seq<string>)
    ensures ReplayFixed(st, a + b) ==
      match ReplayFixed(st, b)
      case None => None
      case Some(s) => ReplayFixed(s, a)
    decreases |b|
  {
    if b == [] {
      assert a + b == a;
    } else {
      var n := |b| - 1;
      assert (a + b)[..|a + b| - 1] == a + b[..n];
      assert (a + b)[|a + b| - 1] == b[n];
      match FixedStep(st, b[n])
      case None =>
      case Some(s) => ReplayFixedAppend(s, a, b[..n]);
    }
  }

  /** The corrected `relog_latest`. */
  function FixedLatest(lines: seq<string>): Option<seq<ReturnRecord>>
  {
    match ReplayFixed(PendingState([], []), lines)
    case None => None
    case Some(st) => Some(TakeTwo(st.logs))
  }

  lemma {:induction false} CollectLines(st: PendingState, lines: seq<string>, parsed: seq<Item>)
    requires ReadsAs(lines, parsed)
    ensures ReplayFixed(st, lines) == Some(st.(pending := parsed + st.pending))
    decreases |lines|
  {
    if lines == [] {
      assert parsed + st.pending == st.pending;
    } else {
      var m := |lines| - 1;
      var st' := st.(pending := [parsed[m]] + st.pending);
      assert FixedStep(st, lines[m]) == Some(st') by {
        assert !IsHeader(lines[m]) && IsItemLine(lines[m]) && ParseItemLine(lines[m]) == Some(parsed[m]);
      }
      PendingAfter(parsed, st.pending);
      ReadsAsPrefix(lines, parsed, m);
      CollectLines(st', lines[..m], parsed[..m]);
    }
  }

  lemma {:induction false} ReplayFixedLog(entries: seq<ReturnEntry>)
    requires forall k :: 0 <= k < |entries| ==> LoggableEntry(entries[k])
    ensures ReplayFixed(PendingState([], []), LogLines(entries)) == Some(PendingState(Intended(entries), []))
    decreases |entries|
  {
    if entries != [] {
      var e := entries[0];
      var rest := entries[1..];
      var items := ItemLines(e.items);
      var st := PendingState(Intended(rest), []);
      assert ReplayFixed(PendingState([], []), LogLines(rest)) == Some(st) by {
        assert forall k :: 0 <= k < |rest| ==> rest[k] == entries[k + 1];
        ReplayFixedLog(rest);
      }
      var filled := PendingState(st.logs, EchoAll(e.items));
      assert ReplayFixed(st, items) == Some(filled) by {
        ItemLinesReadBack(e.items);
        CollectLines(st, items, EchoAll(e.items));
        assert EchoAll(e.items) + [] == EchoAll(e.items);
      }
      ReplayFixedAppend(PendingState([], []), EntryLines(e), LogLines(rest));
      ReplayFixedAppend(st, [HeaderLine(e), ReturnedLine], items);
      HeaderBlock(Start, filled, e);
    }
  }

  /** The corrected parser answers the two newest returns, each with its
      own items in the order they were written. */
  lemma FixedLatestOfLog(entries: seq<ReturnEntry>)
    requires forall k :: 0 <= k < |entries| ==> LoggableEntry(entries[k])
    ensures FixedLatest(LogLines(entries)) == Some(TakeTwo(Intended(entries)))
  {
    ReplayFixedLog(entries);
  }

  /** Two returns, the first of item A, then the second of item B. */
  const ItemA := Item("Tee", Some("M"), 1)
  const ItemB := Item("Cap", Some("L"), 2)
  const TwoReturns := [ReturnEntry("t1", "Amy", "其他", "店面", 300, [ItemA]),
                       ReturnEntry("t2", "Amy", "其他", "店面", 500, [ItemB])]

  lemma TwoReturnsLoggable()
    ensures forall k :: 0 <= k < |TwoReturns| ==> LoggableEntry(TwoReturns[k])
    ensures EchoAll([ItemA]) == [ItemA] && EchoAll([ItemB]) == [ItemB]
  {
    assert Loggable(ItemA) && Loggable(ItemB);
    assert LoggableEntry(TwoReturns[0]) && LoggableEntry(TwoReturns[1]);
    assert Echo(ItemA) == ItemA && Echo(ItemB) == ItemB;
  }

  /** As written, the newest record shows A, the item of the older return,
      and the older record shows nothing. */
  lemma AsWrittenMisattributes()
    ensures Latest(LogLines(TwoReturns)) == Some([ReturnRecord("t2", [ItemA]), ReturnRecord("t1", [])])
  {
    TwoReturnsLoggable();
    LatestOfLog(TwoReturns);
    assert TwoReturns[1..][1..] == [];
    assert Reversed([ItemA]) == [ItemA] by {
      assert [ItemA][..0] == [];
    }
    assert AsWrittenLogs(TwoReturns[1..]) == [];
    assert AsWrittenRecords(TwoReturns) == [ReturnRecord("t2", [ItemA]), ReturnRecord("t1", [])];
  }

  /** The corrected parser shows B for the newest return and A for the
      older one. */
  lemma FixedAttributesOwnItems()
    ensures FixedLatest(LogLines(TwoReturns)) == Some([ReturnRecord("t2", [ItemB]), ReturnRecord("t1", [ItemA])])
  {
    TwoReturnsLoggable();
    FixedLatestOfLog(TwoReturns);
    assert TwoReturns[1..][1..] == [];
    assert Intended(TwoReturns) == [ReturnRecord("t2", [ItemB]), ReturnRecord("t1", [ItemA])];
  }
}
