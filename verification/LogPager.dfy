/**
 Serving one page of rows to a viewer: the indexed candidates are read back from the
 file, filtered by text, cut to size and stopped at two byte budgets, and the cursor
 names the last record consumed. The file does not change while it is paged through;
 a read may still fail.
 */
module LogPager {
  import opened Prelude
  import opened LineStream
  import opened LogIndex
  import opened LogScan

  const MAX_FIELD: nat := MAX_LINE / 4
  const HEADROOM: nat := 4096
  const MAX_OFFSET: nat := 0x1_0000_0000_0000_0000

  /** The lossy UTF-8 text of a record and the message a viewer shows for it. */
  datatype Decoded = Decoded(raw: Text, message: Text)

  /** What the pager only calls: parsing and decoding a record, the case-insensitive search
      for a needle in a message and a target, and whether reading a range succeeds. */
  datatype Env = Env(parse: Parser, decode: seq<byte> -> Decoded, found: (Text, Text, Text) -> bool,
                     available: (nat, nat) -> bool)

  /** Every read succeeds. */
  ghost predicate Reliable(env: Env) {
    forall start, end :: env.available(start, end)
  }

  datatype LogRow = LogRow(id: Text, timestamp: Option<Text>, level: Level, target: Text, message: Text, raw: Text,
                           unparsed: bool, truncated: bool)

  // ---------- Sizes on the wire ----------

  function Digits(n: nat): (t: Text)
    ensures forall i | 0 <= i < |t| :: 48 <= t[i] < 58
  {
    if n < 10 then [48 + n] else Digits(n / 10) + [48 + n % 10]
  }

  function Pow10(k: nat): nat {
    if k == 0 then 1 else 10 * Pow10(k - 1)
  }

  lemma {:induction false} DigitsShort(n: nat, k: nat)
    requires 0 < k && n < Pow10(k)
    ensures |Digits(n)| <= k
  {
    if n >= 10 {
      DigitsShort(n / 10, k - 1);
    }
  }

  function Signed(n: int): Text {
    if n < 0 then [45] + Digits(-n) else Digits(n)
  }

  /** JSON output length of one byte inside a string. */
  function EscapedLength(b: byte): nat {
    if b == 34 || b == 92 || b == 8 || b == 9 || b == 10 || b == 12 || b == 13 then 2
    else if b < 32 then 6
    else 1
  }

  function JsonLength(t: Text): nat {
    if t == [] then 2 else JsonLength(t[..|t| - 1]) + EscapedLength(t[|t| - 1])
  }

  lemma {:induction false} JsonAtMostSixfold(t: Text)
    ensures JsonLength(t) <= 2 + 6 * |t|
  {
    if t != [] {
      JsonAtMostSixfold(t[..|t| - 1]);
    }
  }

  function LevelLength(level: Level): nat {
    match level
    case Info => 6
    case Warn => 6
    case Unknown => 9
    case _ => 7
  }

  function BoolLength(b: bool): nat {
    if b then 4 else 5
  }

  /** Length of the JSON object of a row; the constants are its keys and punctuation. */
  function RowLength(row: LogRow): nat {
    6 + JsonLength(row.id)
    + 13 + (if row.timestamp.Some? then JsonLength(row.timestamp.value) else 4)
    + 9 + LevelLength(row.level)
    + 10 + JsonLength(row.target)
    + 11 + JsonLength(row.message)
    + 7 + JsonLength(row.raw)
    + 12 + BoolLength(row.unparsed)
    + 13 + BoolLength(row.truncated) + 1
  }

  // ---------- Rows ----------

  function RowOf(env: Env, generation: Text, file: seq<byte>, e: Entry, pool: seq<Text>): LogRow
    requires e.start <= e.end <= |file| && e.target < |pool|
  {
    var shown := env.decode(file[e.start..e.end]);
    LogRow(generation + [58] + Digits(e.start),
           if e.timestamp.Some? then Some(Signed(e.timestamp.value)) else None,
           e.level, pool[e.target], CutAt(shown.message, MAX_FIELD), CutAt(shown.raw, MAX_FIELD),
           e.unparsed, e.truncated || |shown.message| > MAX_FIELD || |shown.raw| > MAX_FIELD)
  }

  predicate TextMatches(env: Env, needle: Option<Text>, file: seq<byte>, e: Entry, pool: seq<Text>)
    requires e.start <= e.end <= |file| && e.target < |pool|
  {
    needle.None? || env.found(needle.value, env.decode(file[e.start..e.end]).message, pool[e.target])
  }

  /** The record lies in the file and has bounded parts. */
  ghost predicate ReadableEntry(e: Entry, pool: seq<Text>, file: seq<byte>) {
    && e.start < e.end <= |file| && e.end - e.start <= MAX_LINE + 1
    && e.target < |pool| && |pool[e.target]| <= MAX_TARGET
    && (e.timestamp.Some? ==> -0x8000_0000_0000_0000 <= e.timestamp.value < 0x8000_0000_0000_0000)
  }

  ghost predicate Readable(es: seq<Entry>, pool: seq<Text>, file: seq<byte>) {
    forall i | 0 <= i < |es| :: ReadableEntry(es[i], pool, file)
  }

  /** What one request asks for, apart from its direction and cursor. */
  datatype Lens = Lens(env: Env, generation: Text, needle: Option<Text>, file: seq<byte>, pool: seq<Text>)

  /** The rows of the entries whose text matches, in order. */
  ghost function Rows(l: Lens, es: seq<Entry>): (r: seq<LogRow>)
    requires Readable(es, l.pool, l.file)
  {
    if es == [] then []
    else
      var e := es[|es| - 1];
      Rows(l, es[..|es| - 1])
      + (if TextMatches(l.env, l.needle, l.file, e, l.pool)
         then [RowOf(l.env, l.generation, l.file, e, l.pool)] else [])
  }

  /** The rows of the first `c` entries. */
  ghost function RowsUpto(l: Lens, es: seq<Entry>, c: nat): seq<LogRow>
    requires Readable(es, l.pool, l.file) && c <= |es|
  {
    Rows(l, es[..c])
  }

  /** Whatever the record says, its row fits an empty response. */
  lemma OneRowFits(env: Env, generation: Text, file: seq<byte>, e: Entry, pool: seq<Text>)
    requires ReadableEntry(e, pool, file) && |generation| == 36 && |file| < MAX_OFFSET
    ensures HEADROOM + RowLength(RowOf(env, generation, file, e, pool)) + 1 <= MAX_BATCH
  {
    hide JsonLength, CutAt, Digits, Pow10;
    var row := RowOf(env, generation, file, e, pool);
    OffsetDigits(e.start);
    if e.timestamp.Some? {
      TimestampDigits(e.timestamp.value);
      JsonAtMostSixfold(Signed(e.timestamp.value));
    }
    JsonAtMostSixfold(row.id);
    JsonAtMostSixfold(row.target);
    JsonAtMostSixfold(row.message);
    JsonAtMostSixfold(row.raw);
  }

  lemma OffsetDigits(n: nat)
    requires n < MAX_OFFSET
    ensures |Digits(n)| <= 20
  {
    TenTo20();
    DigitsShort(n, 20);
  }

  lemma TimestampDigits(n: int)
    requires -0x8000_0000_0000_0000 <= n < 0x8000_0000_0000_0000
    ensures |Signed(n)| <= 21
  {
    OffsetDigits(if n < 0 then -n else n);
  }

  lemma TenTo20()
    ensures Pow10(20) == 100_000_000_000_000_000_000
  {
    assert Pow10(5) == 100_000 by {
      assert Pow10(2) == 100;
      assert Pow10(4) == 10_000;
    }
    assert Pow10(10) == 10_000_000_000 by {
      assert Pow10(7) == 10_000_000;
      assert Pow10(9) == 1_000_000_000;
    }
    assert Pow10(15) == 1_000_000_000_000_000 by {
      assert Pow10(12) == 1_000_000_000_000;
      assert Pow10(14) == 100_000_000_000_000;
    }
    assert Pow10(17) == 100_000_000_000_000_000;
    assert Pow10(19) == 10_000_000_000_000_000_000;
  }

  // ---------- The page ----------

  datatype LogPage = LogPage(rows: seq<LogRow>, cursor: nat, head: nat, start: nat, generation: Text, file: Text,
                             more: bool, partial: bool, malformed: nat, truncated: nat, indexed: nat)

  /** `offset` is None when the cursor's text is not a number. */
  datatype Cursor = Cursor(generation: Text, offset: Option<nat>)

  datatype Query = Query(filter: Filter, needle: Option<Text>, direction: Direction, cursor: Option<Cursor>, limit: nat)

  datatype LogError = Unavailable | CursorReset | InvalidRequest

  datatype Reply = Served(page: LogPage) | Failed(error: LogError)

  /** Row lengths with their separators. */
  function RowsLength(rows: seq<LogRow>): nat {
    if rows == [] then 0 else RowsLength(rows[..|rows| - 1]) + RowLength(rows[|rows| - 1]) + 1
  }

  function CursorLength(generation: Text, offset: nat): nat {
    25 + JsonLength(generation) + JsonLength(Digits(offset))
  }

  /** Length of the JSON object of a page: keys, cursors, counters, flags, then the rows. */
  function PageLength(page: LogPage): nat {
    134 + CursorLength(page.generation, page.cursor) + CursorLength(page.generation, page.head)
    + JsonLength(Digits(page.start)) + JsonLength(page.file)
    + BoolLength(false) + BoolLength(page.more) + BoolLength(page.partial)
    + JsonLength(Digits(page.malformed)) + JsonLength(Digits(page.truncated))
    + JsonLength(Digits(page.indexed)) + JsonLength(Digits(page.indexed))
    + RowsLength(page.rows)
  }

  lemma NumberLength(n: nat)
    requires n < MAX_OFFSET
    ensures JsonLength(Digits(n)) <= 122
  {
    OffsetDigits(n);
    JsonAtMostSixfold(Digits(n));
  }

  /** The fields around the rows fit the reserved headroom. */
  lemma PageFits(page: LogPage)
    requires |page.generation| == 36 && |page.file| <= 255
    requires page.cursor < MAX_OFFSET && page.head < MAX_OFFSET && page.start < MAX_OFFSET
    requires page.malformed < MAX_OFFSET && page.truncated < MAX_OFFSET && page.indexed < MAX_OFFSET
    requires HEADROOM + RowsLength(page.rows) <= MAX_BATCH
    ensures PageLength(page) <= MAX_BATCH
  {
    hide JsonLength, Digits, RowsLength;
    JsonAtMostSixfold(page.generation);
    JsonAtMostSixfold(page.file);
    NumberLength(page.cursor);
    NumberLength(page.head);
    NumberLength(page.start);
    NumberLength(page.malformed);
    NumberLength(page.truncated);
    NumberLength(page.indexed);
  }

  /** Reading a range of the unchanging file. */
  function Read(env: Env, file: seq<byte>, start: nat, end: nat): (content: Option<seq<byte>>)
    requires start <= end <= |file|
  {
    if env.available(start, end) then Some(file[start..end]) else None
  }

  function CursorAfter(e: Entry, reverse: bool): nat {
    if reverse then e.start else e.end
  }

  /** Bytes of the file that some entries cover. */
  function Span(es: seq<Entry>): int {
    if es == [] then 0 else Span(es[..|es| - 1]) + (es[|es| - 1].end - es[|es| - 1].start)
  }

  lemma NoSpan()
    ensures Span([]) == 0
  {
  }

  lemma SpanSnoc(es: seq<Entry>, c: nat)
    requires c < |es|
    ensures Span(es[..c + 1]) == Span(es[..c]) + (es[c].end - es[c].start)
  {
    assert es[..c + 1][..c] == es[..c];
  }

  /** The row loop: consumes a prefix of `todo`, and always at least one entry. */
  method FillRows(l: Lens, todo: seq<Entry>, origin: nat, reverse: bool)
      returns (rows: seq<LogRow>, cursor: nat, stopped: bool, failed: bool, bytes: nat, consumed: nat)
    requires Readable(todo, l.pool, l.file) && |l.generation| == 36 && |l.file| < MAX_OFFSET
    ensures consumed <= |todo| && rows == RowsUpto(l, todo, consumed)
    ensures cursor == if consumed == 0 then origin else CursorAfter(todo[consumed - 1], reverse)
    ensures stopped ==> 0 < consumed < |todo|
    ensures !stopped && !failed ==> consumed == |todo|
    ensures failed ==> consumed < |todo| && !l.env.available(todo[consumed].start, todo[consumed].end)
    ensures Span(todo[..consumed]) <= bytes <= MAX_BATCH && HEADROOM + RowsLength(rows) <= MAX_BATCH
  {
    hide RowLength, RowOf, TextMatches, RowsUpto, RowsLength, Readable, Span;
    assert Span(todo[..0]) == 0 by { NoSpan(); }
    rows, cursor, stopped, failed, bytes, consumed := [], origin, false, false, 0, 0;
    var response := HEADROOM;
    RowsOfNothing(l, todo);
    while consumed < |todo|
      invariant consumed <= |todo| && rows == RowsUpto(l, todo, consumed)
      invariant cursor == if consumed == 0 then origin else CursorAfter(todo[consumed - 1], reverse)
      invariant consumed == 0 ==> bytes == 0 && rows == []
      invariant Span(todo[..consumed]) <= bytes <= MAX_BATCH && response == HEADROOM + RowsLength(rows) <= MAX_BATCH
      invariant !stopped && !failed
    {
      SpanSnoc(todo, consumed);
      var e := todo[consumed];
      ReadableAt(todo, l.pool, l.file, consumed);
      RowsSnoc(l, todo, consumed);
      if bytes + (e.end - e.start) > MAX_BATCH {
        stopped := true;
        break;
      }
      var content := Read(l.env, l.file, e.start, e.end);
      if content.None? {
        failed := true;
        break;
      }
      bytes := bytes + |content.value|;
      if TextMatches(l.env, l.needle, l.file, e, l.pool) {
        var row := RowOf(l.env, l.generation, l.file, e, l.pool);
        OneRowFits(l.env, l.generation, l.file, e, l.pool);
        if response + RowLength(row) + 1 > MAX_BATCH {
          stopped := true;
          break;
        }
        response := response + RowLength(row) + 1;
        RowsLengthSnoc(rows, row);
        rows := rows + [row];
      }
      cursor := CursorAfter(e, reverse);
      consumed := consumed + 1;
    }
  }

  lemma RowsOfNothing(l: Lens, es: seq<Entry>)
    requires Readable(es, l.pool, l.file)
    ensures RowsUpto(l, es, 0) == [] && RowsLength([]) == 0
  {
  }

  lemma RowsSnoc(l: Lens, es: seq<Entry>, c: nat)
    requires Readable(es, l.pool, l.file) && c < |es|
    ensures RowsUpto(l, es, c + 1) == RowsUpto(l, es, c)
      + if TextMatches(l.env, l.needle, l.file, es[c], l.pool)
        then [RowOf(l.env, l.generation, l.file, es[c], l.pool)] else []
  {
    hide RowOf, TextMatches, ReadableEntry;
    assert es[..c + 1][..c] == es[..c];
  }

  lemma RowsLengthSnoc(rows: seq<LogRow>, row: LogRow)
    ensures RowsLength(rows + [row]) == RowsLength(rows) + RowLength(row) + 1
  {
    hide RowLength;
    assert (rows + [row])[..|rows|] == rows;
  }

  lemma ReadableAt(es: seq<Entry>, pool: seq<Text>, file: seq<byte>, i: nat)
    requires Readable(es, pool, file) && i < |es|
    ensures ReadableEntry(es[i], pool, file)
  {
  }

  // ---------- What a served page leaves to the next one ----------

  lemma {:induction false} HitsReadable(f: Filter, es: seq<Entry>, pool: seq<Text>, file: seq<byte>)
    requires Readable(es, pool, file)
    ensures Readable(Hits(f, es, pool), pool, file)
  {
    if es != [] {
      HitsReadable(f, es[..|es| - 1], pool, file);
    }
  }

  /** Every row on the far side of `b`: the sequential reference for paging. */
  ghost function RowsBeyond(l: Lens, f: Filter, es: seq<Entry>, b: nat, reverse: bool): seq<LogRow>
    requires Readable(es, l.pool, l.file)
  {
    HitsReadable(f, Beyond(es, b, reverse), l.pool, l.file);
    Rows(l, Hits(f, Beyond(es, b, reverse), l.pool))
  }

  lemma {:induction false} RowsConcat(l: Lens, a: seq<Entry>, b: seq<Entry>)
    requires Readable(a, l.pool, l.file) && Readable(b, l.pool, l.file)
    ensures Readable(a + b, l.pool, l.file)
    ensures Rows(l, a + b) == Rows(l, a) + Rows(l, b)
  {
    if b == [] {
      assert a + b == a;
    } else {
      var n := |b| - 1;
      assert (a + b)[..|a + b| - 1] == a + b[..n];
      RowsConcat(l, a, b[..n]);
      assert forall i | 0 <= i < |b| :: (a + b)[|a| + i] == b[i];
    }
  }

  lemma {:induction false} ReadableReversed(es: seq<Entry>, pool: seq<Text>, file: seq<byte>)
    requires Readable(es, pool, file)
    ensures Readable(Reversed(es), pool, file)
  {
    if es != [] {
      ReadableReversed(es[..|es| - 1], pool, file);
    }
  }

  /** The rows of the entries read backwards are the rows backwards. */
  lemma {:induction false} RowsOfReversed(l: Lens, es: seq<Entry>)
    requires Readable(es, l.pool, l.file)
    ensures Readable(Reversed(es), l.pool, l.file)
    ensures Reversed(Rows(l, Reversed(es))) == Rows(l, es)
  {
    ReadableReversed(es, l.pool, l.file);
    if es != [] {
      var n := |es| - 1;
      RowsOfReversed(l, es[..n]);
      ReadableReversed(es[..n], l.pool, l.file);
      RowsConcat(l, [es[n]], Reversed(es[..n]));
      RowsOfOne(l, es[n]);
      var first, rest := Rows(l, [es[n]]), Rows(l, Reversed(es[..n]));
      if first == [] {
        assert first + rest == rest;
      } else {
        ReversedCons(first[0], rest);
        assert first == [first[0]];
      }
    }
  }

  lemma RowsOfOne(l: Lens, e: Entry)
    requires ReadableEntry(e, l.pool, l.file)
    ensures Readable([e], l.pool, l.file)
    ensures Rows(l, [e]) == if TextMatches(l.env, l.needle, l.file, e, l.pool)
                            then [RowOf(l.env, l.generation, l.file, e, l.pool)] else []
  {
    assert [e][..0] == [];
  }

  lemma HitsSnoc(f: Filter, es: seq<Entry>, e: Entry, pool: seq<Text>)
    ensures Hits(f, es + [e], pool) == Hits(f, es, pool) + if Matches(f, e, pool) then [e] else []
  {
    assert (es + [e])[..|es|] == es;
  }

  /** Where the k-th hit sits among the entries. */
  lemma {:induction false} HitPosition(f: Filter, es: seq<Entry>, pool: seq<Text>, k: nat) returns (p: nat)
    requires k < |Hits(f, es, pool)|
    ensures p < |es| && es[p] == Hits(f, es, pool)[k]
    ensures Hits(f, es[..p], pool) == Hits(f, es, pool)[..k]
    ensures Hits(f, es[p + 1..], pool) == Hits(f, es, pool)[k + 1..]
  {
    hide Matches, Hits;
    NoHits(f, [], pool);
    assert es != [];
    var n := |es| - 1;
    var front, e := es[..n], es[n];
    assert es == front + [e];
    HitsSnoc(f, front, e, pool);
    if k < |Hits(f, front, pool)| {
      p := HitPosition(f, front, pool, k);
      assert front[..p] == es[..p];
      assert es[p + 1..] == front[p + 1..] + [e];
      HitsSnoc(f, front[p + 1..], e, pool);
    } else {
      p := n;
      assert es[n + 1..] == [];
    }
  }

  /** Stopping right after the k-th hit leaves exactly the later hits. */
  lemma HitsAfter(f: Filter, es: seq<Entry>, pool: seq<Text>, b: nat, k: nat)
    requires Ordered(es) && k < |Hits(f, Beyond(es, b, false), pool)|
    ensures var hits := Hits(f, Beyond(es, b, false), pool);
      Hits(f, Beyond(es, hits[k].end, false), pool) == hits[k + 1..] && b < hits[k].end
  {
    hide Hits, Matches, Split;
    var s := Split(es, b);
    SplitMeaning(es, b);
    var p := HitPosition(f, es[s..], pool, k);
    SplitAt(es, s + p);
    assert es[s..][p + 1..] == es[s + p + 1..];
  }

  /** Stopping right before the k-th hit, going back, leaves exactly the earlier hits. */
  lemma HitsBefore(f: Filter, es: seq<Entry>, pool: seq<Text>, b: nat, k: nat)
    requires Ordered(es) && k < |Hits(f, Beyond(es, b, true), pool)|
    ensures var hits := Hits(f, Beyond(es, b, true), pool);
      Hits(f, Beyond(es, hits[k].start, true), pool) == hits[..k]
  {
    hide Hits, Matches;
    var s := Split(es, b);
    var p := HitPosition(f, es[..s], pool, k);
    SplitAt(es, p);
    assert es[..s][..p] == es[..p];
  }

  /** The page's rows and the rows beyond its cursor together are the rows beyond `b`;
      forwards, a page that promises more has advanced and one that does not is the last. */
  ghost predicate ServedOk(l: Lens, w: View, f: Filter, b: nat, reverse: bool, rows: seq<LogRow>, cursor: nat,
                           more: bool)
    requires Readable(w.entries, l.pool, l.file)
  {
    var rest := RowsBeyond(l, f, w.entries, cursor, reverse);
    && RowsBeyond(l, f, w.entries, b, reverse) == (if reverse then rest + rows else rows + rest)
    && (!reverse ==> if more then b < cursor <= w.committed else Beyond(w.entries, cursor, reverse) == [])
  }

  lemma ServedForward(l: Lens, w: View, f: Filter, b: nat, limit: nat, scan: Page, consumed: nat, cursor: nat,
                      more: bool)
    requires Searchable(w) && Readable(w.entries, l.pool, l.file) && l.pool == w.catalog.pool
    requires PageOk(w, f, b, false, limit, scan) && consumed <= |scan.entries|
    requires if consumed == |scan.entries| then cursor == scan.boundary && more == scan.more
             else 0 < consumed && cursor == scan.entries[consumed - 1].end && more
    ensures Readable(scan.entries, l.pool, l.file)
    ensures ServedOk(l, w, f, b, false, Rows(l, scan.entries[..consumed]), cursor, more)
  {
    hide Hits, Searchable, Beyond, Rows, ReadableEntry;
    var hits := Hits(f, Beyond(w.entries, b, false), l.pool);
    BeyondReadable(l, f, w.entries, b, false);
    BeyondReadable(l, f, w.entries, cursor, false);
    assert scan.entries == hits[..|scan.entries|];
    var taken, rest := scan.entries[..consumed], Hits(f, Beyond(w.entries, cursor, false), l.pool);
    if consumed < |scan.entries| {
      SearchableIsOrdered(w);
      HitsAfter(f, w.entries, l.pool, b, consumed - 1);
      HitInside(w, f, b, false, consumed - 1);
    }
    assert hits == taken + rest;
    RowsConcat(l, taken, rest);
  }

  lemma ServedBackward(l: Lens, w: View, f: Filter, b: nat, limit: nat, scan: Page, todo: seq<Entry>, consumed: nat,
                       cursor: nat, more: bool)
    requires Searchable(w) && Readable(w.entries, l.pool, l.file) && l.pool == w.catalog.pool
    requires PageOk(w, f, b, true, limit, scan) && consumed <= |todo|
    requires todo == Reversed(scan.entries) && Readable(todo, l.pool, l.file)
    requires if consumed == |todo|
             then Beyond(w.entries, cursor, true) == Beyond(w.entries, scan.boundary, true)
             else 0 < consumed && cursor == todo[consumed - 1].start
    ensures ServedOk(l, w, f, b, true, Reversed(RowsUpto(l, todo, consumed)), cursor, more)
  {
    hide Hits, Searchable, Beyond, Rows, Readable, Reversed, PageOk;
    var hits := Hits(f, Beyond(w.entries, b, true), l.pool);
    var rest := Hits(f, Beyond(w.entries, cursor, true), l.pool);
    BeyondReadable(l, f, w.entries, b, true);
    BeyondReadable(l, f, w.entries, cursor, true);
    ReadableScan(l, w, f, b, true, limit, scan);
    var taken := scan.entries[|scan.entries| - consumed..];
    BackwardRest(w, f, b, limit, scan, consumed, cursor);
    ReadableParts(rest, taken, l.pool, l.file);
    RowsConcat(l, rest, taken);
    ReversedPrefix(scan.entries, consumed);
    RowsOfReversed(l, taken);
  }

  /** A page read backwards ends at `oldest`, or else right before an entry with others
      before it; only offset 0 ends the walk. */
  ghost predicate BackwardOk(w: View, b: nat, oldest: nat, cursor: nat, more: bool) {
    && (more <==> cursor > 0)
    && if Beyond(w.entries, cursor, true) == [] then cursor == oldest
       else cursor in EntryStarts(w.entries) && cursor < b
  }

  /** Stopping at a row that is not the oldest on the page. */
  lemma StoppedBackward(w: View, f: Filter, b: nat, limit: nat, scan: Page, consumed: nat, oldest: nat)
    requires Searchable(w) && PageOk(w, f, b, true, limit, scan) && 0 < consumed < |scan.entries|
    ensures BackwardOk(w, b, oldest, Reversed(scan.entries)[consumed - 1].start, true)
  {
    hide Hits, Searchable, Split, Reversed, Matches;
    var n := |scan.entries| - consumed;
    var cursor := Reversed(scan.entries)[consumed - 1].start;
    ReversedAt(scan.entries, consumed - 1);
    var hits := Hits(f, Beyond(w.entries, b, true), w.catalog.pool);
    var m := |hits| - consumed;
    assert scan.entries[n] == hits[m] && hits[m - 1] == scan.entries[n - 1];
    HitsInOrder(w, f, b, m - 1);
  }

  /** Reading all of the page. */
  lemma EndsBackward(w: View, f: Filter, b: nat, limit: nat, scan: Page, oldest: nat)
    requires Searchable(w) && PageOk(w, f, b, true, limit, scan) && Beyond(w.entries, oldest, true) == []
    ensures BackwardOk(w, b, oldest, if scan.more then scan.boundary else oldest, scan.more || oldest > 0)
  {
    hide Hits, Indexed, Split;
    if scan.more {
      SplitMeaning(w.entries, scan.boundary);
      assert w.entries[0].start < scan.boundary;
    }
  }

  /** Of two consecutive hits before `b` the earlier one is still beyond the later one. */
  lemma HitsInOrder(w: View, f: Filter, b: nat, k: nat)
    requires Searchable(w) && k + 1 < |Hits(f, Beyond(w.entries, b, true), w.catalog.pool)|
    ensures var later := Hits(f, Beyond(w.entries, b, true), w.catalog.pool)[k + 1];
      && 0 < later.start < b && later.start in EntryStarts(w.entries)
      && Beyond(w.entries, later.start, true) != []
  {
    hide Hits, Matches, Indexed;
    var es := w.entries;
    var some := es[..Split(es, b)];
    SplitMeaning(es, b);
    var q := HitPosition(f, some, w.catalog.pool, k + 1);
    assert |Hits(f, some[..q], w.catalog.pool)| == k + 1 <= q;
    assert EntryStarts(es)[q] == es[q].start;
    assert es[0].end <= es[q].start;
    SplitAt(es, q);
  }

  lemma BackwardRest(w: View, f: Filter, b: nat, limit: nat, scan: Page, consumed: nat, cursor: nat)
    requires Searchable(w) && PageOk(w, f, b, true, limit, scan) && consumed <= |scan.entries|
    requires if consumed == |scan.entries|
             then Beyond(w.entries, cursor, true) == Beyond(w.entries, scan.boundary, true)
             else 0 < consumed && cursor == Reversed(scan.entries)[consumed - 1].start
    ensures Hits(f, Beyond(w.entries, b, true), w.catalog.pool)
         == Hits(f, Beyond(w.entries, cursor, true), w.catalog.pool) + scan.entries[|scan.entries| - consumed..]
  {
    hide Hits, Searchable, Beyond, Reversed;
    var hits := Hits(f, Beyond(w.entries, b, true), w.catalog.pool);
    var n, m := |scan.entries|, |hits|;
    if consumed < n {
      var taken := scan.entries[n - consumed..];
      SearchableIsOrdered(w);
      ReversedPrefix(scan.entries, consumed);
      ReversedAt(taken, consumed - 1);
      assert Reversed(scan.entries)[consumed - 1] == Reversed(taken)[consumed - 1];
      assert scan.entries[n - consumed] == hits[m - consumed];
      HitsBefore(f, w.entries, w.catalog.pool, b, m - consumed);
      assert taken == hits[m - consumed..];
    } else {
      assert scan.entries[0..] == scan.entries;
    }
  }

  lemma ReadableParts(a: seq<Entry>, b: seq<Entry>, pool: seq<Text>, file: seq<byte>)
    requires Readable(a + b, pool, file)
    ensures Readable(a, pool, file) && Readable(b, pool, file)
  {
    hide ReadableEntry;
    assert forall i | 0 <= i < |a| :: a[i] == (a + b)[i];
    assert forall i | 0 <= i < |b| :: b[i] == (a + b)[|a| + i];
  }

  lemma SearchableIsOrdered(w: View)
    requires Searchable(w)
    ensures Ordered(w.entries)
  {
  }

  lemma BeyondReadable(l: Lens, f: Filter, es: seq<Entry>, b: nat, reverse: bool)
    requires Readable(es, l.pool, l.file)
    ensures Readable(Hits(f, Beyond(es, b, reverse), l.pool), l.pool, l.file)
  {
    HitsReadable(f, Beyond(es, b, reverse), l.pool, l.file);
  }

  lemma HitInside(w: View, f: Filter, b: nat, reverse: bool, k: nat)
    requires Searchable(w) && k < |Hits(f, Beyond(w.entries, b, reverse), w.catalog.pool)|
    ensures Hits(f, Beyond(w.entries, b, reverse), w.catalog.pool)[k].end <= w.committed
  {
    var p := HitPosition(f, Beyond(w.entries, b, reverse), w.catalog.pool, k);
  }

  /** Scans, reads and filters one page over the view `w`; `oldest` is the offset below
      which the file may still hold older records. */
  method PageRows(l: Lens, w: View, q: Query, from: Option<nat>, oldest: nat)
      returns (rows: seq<LogRow>, cursor: nat, more: bool, failed: bool, bytes: nat)
    requires Searchable(w) && Readable(w.entries, l.pool, l.file) && l.pool == w.catalog.pool
    requires |l.generation| == 36 && |l.file| < MAX_OFFSET && w.committed <= |l.file| && oldest <= |l.file|
    requires from.Some? ==> from.value <= |l.file|
    requires Beyond(w.entries, oldest, true) == []
    ensures bytes <= MAX_BATCH && HEADROOM + RowsLength(rows) <= MAX_BATCH
    ensures Reliable(l.env) ==> !failed
    ensures !failed ==> cursor < MAX_OFFSET
    ensures !failed ==>
      ServedOk(l, w, q.filter, Origin(w, from, q.direction != After), q.direction != After, rows, cursor, more)
    ensures !failed && q.direction != After ==> BackwardOk(w, Origin(w, from, true), oldest, cursor, more)
  {
    hide Searchable, Rows, Reversed, RowsLength, Readable, ServedOk, BackwardOk, Hits, Ordered, Split;
    var reverse := q.direction != After;
    ghost var b := Origin(w, from, reverse);
    var scan := Scan(w, q.filter, q.direction, from, q.limit);
    more := scan.more || (reverse && oldest > 0);
    ReadableScan(l, w, q.filter, b, reverse, q.limit, scan);
    var todo := if reverse then Reversed(scan.entries) else scan.entries;
    var stopped, consumed;
    rows, cursor, stopped, failed, bytes, consumed := FillRows(l, todo, Origin(w, from, reverse), reverse);
    if stopped {
      more := true;
      ReadableAt(todo, l.pool, l.file, consumed - 1);
    } else {
      cursor := if reverse && !scan.more then oldest else scan.boundary;
    }
    if !failed {
      if reverse {
        ServedBackward(l, w, q.filter, b, q.limit, scan, todo, consumed, cursor, more);
        if stopped {
          StoppedBackward(w, q.filter, b, q.limit, scan, consumed, oldest);
        } else {
          EndsBackward(w, q.filter, b, q.limit, scan, oldest);
        }
      } else {
        ServedForward(l, w, q.filter, b, q.limit, scan, consumed, cursor, more);
        assert scan.entries[..|scan.entries|] == scan.entries;
      }
    }
    if reverse {
      RowsReversedLength(rows);
      rows := Reversed(rows);
    }
  }

  lemma ReadableScan(l: Lens, w: View, f: Filter, b: nat, reverse: bool, limit: nat, scan: Page)
    requires Readable(w.entries, l.pool, l.file) && l.pool == w.catalog.pool
    requires PageOk(w, f, b, reverse, limit, scan)
    ensures Readable(scan.entries, l.pool, l.file)
    ensures Readable(Reversed(scan.entries), l.pool, l.file)
  {
    hide Hits, Beyond, Readable, Reversed;
    BeyondReadable(l, f, w.entries, b, reverse);
    var rest := Hits(f, Beyond(w.entries, scan.boundary, reverse), l.pool);
    if reverse {
      ReadableParts(rest, scan.entries, l.pool, l.file);
    } else {
      ReadableParts(scan.entries, rest, l.pool, l.file);
    }
    ReadableReversed(scan.entries, l.pool, l.file);
  }

  lemma {:induction false} RowsReversedLength(rows: seq<LogRow>)
    ensures RowsLength(Reversed(rows)) == RowsLength(rows)
  {
    if rows != [] {
      var n := |rows| - 1;
      RowsReversedLength(rows[..n]);
      RowsLengthCons(rows[n], Reversed(rows[..n]));
    }
  }

  lemma {:induction false} RowsLengthCons(row: LogRow, rows: seq<LogRow>)
    ensures RowsLength([row] + rows) == RowLength(row) + 1 + RowsLength(rows)
  {
    hide RowLength;
    if rows == [] {
      assert [row] + rows == [row] && [row][..0] == [];
    } else {
      var n := |rows| - 1;
      RowsLengthCons(row, rows[..n]);
      assert ([row] + rows)[..|rows|] == [row] + rows[..n];
    }
  }

  // ---------- Over a live index ----------

  /** Timestamps are milliseconds in 64 bits, and a target is part of its line. */
  ghost predicate SaneParser(parse: Parser) {
    forall line | parse(line).Some? ::
      && (parse(line).value.timestamp.Some? ==>
            -0x8000_0000_0000_0000 <= parse(line).value.timestamp.value < 0x8000_0000_0000_0000)
      && |TargetOf(parse, line)| <= |line|
  }

  /** The index has read exactly this stretch of the file. */
  ghost predicate Covering(index: Index, file: seq<byte>)
    reads index
  {
    && index.Valid()
    && index.base + |index.stream| <= |file|
    && index.stream == file[index.base..index.base + |index.stream|]
  }

  ghost function ViewOf(index: Index): View
    reads index
  {
    View(index.entries, index.catalog, index.committed)
  }

  lemma DescribedIsReadable(parse: Parser, e: Entry, pool: seq<Text>, l: Line, base: nat, s: seq<byte>, file: seq<byte>)
    requires Describes(parse, e, pool, l) && SaneParser(parse)
    requires l in Lines(base, s) && base + |s| <= |file|
    ensures ReadableEntry(e, pool, file)
  {
    hide Lines;
    LinesExact(base, s, l);
  }

  /** What a covering index holds can be read back. */
  lemma IndexIsReadable(index: Index, file: seq<byte>)
    requires Covering(index, file) && SaneParser(index.parse)
    ensures Readable(index.entries, index.catalog.pool, file) && index.committed <= |file|
  {
    hide Indexed, Lines, Describes, SaneParser, ReadableEntry, Excess, LineStart;
    var lines := Retained(index.base, index.stream);
    forall i | 0 <= i < |index.entries| ensures ReadableEntry(index.entries[i], index.catalog.pool, file) {
      DescribedIsReadable(index.parse, index.entries[i], index.catalog.pool, lines[i], index.base, index.stream, file);
    }
  }

  /** What a page says about the file beside its rows. */
  ghost predicate HeaderOk(page: LogPage, index: Index, generation: Text, name: Text)
    reads index
  {
    && page.generation == generation && page.file == name && page.head == index.committed && page.start == index.Start()
    && page.indexed == index.nextRead && page.partial == index.partial
    && page.malformed == index.malformed && page.truncated == index.truncated
  }

  /** The cursor belongs to this index and, going forwards, lies in its window. */
  predicate CursorOk(index: Index, generation: Text, q: Query)
    reads index
  {
    q.cursor.None? ||
    (var c := q.cursor.value;
     && c.offset.Some? && c.generation == generation && c.offset.value <= index.committed
     && (q.direction == After ==> index.Start() <= c.offset.value))
  }

  function From(q: Query): Option<nat> {
    if q.cursor.Some? then q.cursor.value.offset else None
  }

  /** The request is for records older than the live window. */
  predicate IsHistory(index: Index, q: Query)
    reads index
  {
    q.direction == Before && From(q).Some? && 0 < From(q).value <= index.Start()
  }

  /** Where the batch before `end` starts. */
  function Back(end: nat): nat {
    if end < MAX_BATCH then 0 else end - MAX_BATCH
  }

  /** The oldest offset that a view accounts for: the live window's start, or for a batch
      of history its first record, or its first byte if it has none. */
  function Oldest(index: Index, q: Query, w: View): nat
    reads index
  {
    if !IsHistory(index, q) then index.Start()
    else if w.entries == [] then Back(From(q).value) else w.entries[0].start
  }

  /** The view holds exactly the records of the batch before `end`, with their targets. */
  ghost predicate IsBatch(w: View, parse: Parser, file: seq<byte>, end: nat)
    requires end <= |file|
  {
    var lines := Retained(Back(end), file[Back(end)..end]);
    DescribeAll(parse, w.entries, w.catalog.pool, lines) && Uncut(parse, w.entries, lines)
  }

  /** Serves one page of a fully indexed file. A request for records older than the live
      window is answered from a temporary index over the batch before the cursor; `w` is
      the view that answered. */
  method ServePage(env: Env, index: Index, generation: Text, name: Text, file: seq<byte>, q: Query)
      returns (reply: Reply, ghost w: View)
    requires Covering(index, file) && index.nextRead == |file| && index.parse == env.parse && SaneParser(env.parse)
    requires |generation| == 36 && |name| <= 255 && |file| < MAX_OFFSET
    requires index.malformed < MAX_OFFSET && index.truncated < MAX_OFFSET
    ensures if CursorOk(index, generation, q) then reply.Served? || reply == Failed(Unavailable)
            else reply == Failed(if From(q).None? then InvalidRequest else CursorReset)
    ensures CursorOk(index, generation, q) && Reliable(env) ==> reply.Served?
    ensures reply.Served? ==> PageLength(reply.page) <= MAX_BATCH && HeaderOk(reply.page, index, generation, name)
    ensures reply.Served? ==> Readable(w.entries, w.catalog.pool, file)
    ensures reply.Served? ==>
      ServedOk(Lens(env, generation, q.needle, file, w.catalog.pool), w, q.filter,
               Origin(w, From(q), q.direction != After), q.direction != After,
               reply.page.rows, reply.page.cursor, reply.page.more)
    ensures reply.Served? && q.direction != After ==>
      BackwardOk(w, Origin(w, From(q), true), Oldest(index, q, w), reply.page.cursor, reply.page.more)
    ensures reply.Served? && !IsHistory(index, q) ==> w == ViewOf(index)
    ensures reply.Served? && IsHistory(index, q) ==>
      From(q).value <= |file| && IsBatch(w, env.parse, file, From(q).value)
  {
    hide Covering, Searchable, ServedOk, BackwardOk, IsBatch, SaneParser, Readable, PageLength, RowsLength;
    w := ViewOf(index);
    if q.cursor.Some? {
      if q.cursor.value.offset.None? {
        return Failed(InvalidRequest), w;
      }
      var offset := q.cursor.value.offset.value;
      if q.cursor.value.generation != generation || (q.direction == After && offset < index.Start())
         || offset > index.committed {
        return Failed(CursorReset), w;
      }
    }
    ViewIsReady(index, file);
    var view, oldest, failed := View(index.entries, index.catalog, index.committed), index.Start(), false;
    if q.direction == Before && From(q).Some? && 0 < From(q).value <= index.Start() {
      view, oldest, failed := History(env, file, From(q).value);
      if failed {
        return Failed(Unavailable), w;
      }
    }
    w := view;
    var l := Lens(env, generation, q.needle, file, view.catalog.pool);
    var rows, cursor, more, unread, bytes := PageRows(l, view, q, From(q), oldest);
    if unread {
      return Failed(Unavailable), w;
    }
    var page := LogPage(rows, cursor, index.committed, index.Start(), generation, name, more, index.partial,
                        index.malformed, index.truncated, index.nextRead);
    PageFits(page);
    reply := Served(page);
  }

  /** A covering index can be scanned and read back from its start. */
  lemma ViewIsReady(index: Index, file: seq<byte>)
    requires Covering(index, file) && SaneParser(index.parse)
    ensures Searchable(ViewOf(index)) && Readable(index.entries, index.catalog.pool, file)
    ensures index.Start() <= index.committed <= |file| && Beyond(index.entries, index.Start(), true) == []
  {
    hide SaneParser, Readable, Indexed, LineStart, Retained, DescribeAll, Kept, Tally;
    IndexIsSearchable(index);
    IndexIsReadable(index, file);
    NothingBeyondEdge(ViewOf(index), true);
  }

  /** A bounded temporary index over the bytes before `end`. */
  method History(env: Env, file: seq<byte>, end: nat) returns (view: View, oldest: nat, failed: bool)
    requires end <= |file| && SaneParser(env.parse)
    ensures failed <==> !env.available(Back(end), end)
    ensures !failed ==> Searchable(view) && Readable(view.entries, view.catalog.pool, file)
    ensures !failed ==> view.committed <= |file| && oldest <= |file| && Beyond(view.entries, oldest, true) == []
    ensures !failed ==> oldest == if view.entries == [] then Back(end) else view.entries[0].start
    ensures !failed ==> IsBatch(view, env.parse, file, end)
  {
    hide Searchable, SaneParser, Readable, IsBatch, Covering, Beyond;
    var start := Back(end);
    view, oldest, failed := View([], EMPTY_CATALOG, 0), 0, true;
    var index, ok := IndexBatch(env, file, start, end);
    if ok {
      view, failed := View(index.entries, index.catalog, index.committed), false;
      oldest := if index.entries == [] then start else index.Start();
      ViewIsReady(index, file);
      BatchIsHeld(index, file, end);
      NothingInNothing(oldest);
    }
  }

  lemma NothingInNothing(b: nat)
    ensures Beyond([], b, true) == []
  {
  }

  lemma BatchIsHeld(index: Index, file: seq<byte>, end: nat)
    requires Covering(index, file) && SaneParser(index.parse) && end <= |file|
    requires index.base == Back(end) && index.stream == file[Back(end)..end]
    ensures IsBatch(ViewOf(index), index.parse, file, end)
  {
    hide SaneParser, Indexed, LineStart, Lines, Starts, Excess, Floor, DescribeAll, Tally, Vocabulary, TotalBytes;
    hide Uncut;
    VocabularyFits(index.parse, index.base, index.stream);
  }

  /** The distinct targets of a batch need no more bytes than the batch. */
  lemma {:induction false} VocabularyFits(parse: Parser, base: nat, s: seq<byte>)
    requires SaneParser(parse)
    ensures TotalBytes(Vocabulary(parse, Lines(base, s))) <= LineStart(s)
  {
    hide SaneParser, Lines, LineStart, Vocabulary, TotalBytes, TargetOf;
    if s == [] {
      NoVocabulary(parse, base);
    } else {
      var n := |s| - 1;
      var p, b, k := s[..n], s[n], LineStart(s[..n]);
      VocabularyFits(parse, base, p);
      assert s == p + [b];
      LinesSnoc(base, p, b);
      var l := Line(base + k, base + n + 1, p[k..]);
      VocabularyGrows(parse, Lines(base, p), l);
    }
  }

  lemma NoVocabulary(parse: Parser, base: nat)
    ensures TotalBytes(Vocabulary(parse, Lines(base, []))) == 0
  {
    var words: seq<Text> := [[]];
    assert words[..0] == [];
  }

  lemma VocabularyGrows(parse: Parser, lines: seq<Line>, l: Line)
    requires SaneParser(parse)
    ensures TotalBytes(Vocabulary(parse, lines + [l])) <= TotalBytes(Vocabulary(parse, lines)) + |l.content|
  {
    hide Vocabulary;
    VocabularySnoc(parse, lines, l);
    var words, t := Vocabulary(parse, lines), ShortTarget(parse, l);
    assert (words + [t])[..|words|] == words;
    assert |TargetOf(parse, l.content)| <= |l.content|;
  }

  method IndexBatch(env: Env, file: seq<byte>, start: nat, end: nat) returns (index: Index, ok: bool)
    requires start <= end <= |file| && end - start <= MAX_BATCH
    ensures fresh(index) && index.parse == env.parse && ok == env.available(start, end)
    ensures ok ==> Covering(index, file) && index.base == start && index.stream == file[start..end]
  {
    hide Indexed, LineStart, Retained, DescribeAll, Kept, Tally, Lines, Excess, Floor, Starts;
    var content := Read(env, file, start, end);
    index := new Index(env.parse, start);
    ok := content.Some?;
    if ok {
      var _ := index.Append(start, content.value);
      assert [] + content.value == content.value;
    }
  }

  /** Following the cursor forwards over the unchanging file shows every matching record
      exactly once, in file order, unless a read fails. */
  method ReadForward(env: Env, index: Index, generation: Text, name: Text, file: seq<byte>, f: Filter,
                     needle: Option<Text>, limit: nat) returns (rows: seq<LogRow>, failed: bool)
    requires Covering(index, file) && index.nextRead == |file| && index.parse == env.parse && SaneParser(env.parse)
    requires |generation| == 36 && |name| <= 255 && |file| < MAX_OFFSET
    requires index.malformed < MAX_OFFSET && index.truncated < MAX_OFFSET
    ensures Readable(index.entries, index.catalog.pool, file)
    ensures var l := Lens(env, generation, needle, file, index.catalog.pool);
      !failed ==> rows == RowsBeyond(l, f, index.entries, index.Start(), false)
    ensures Reliable(env) ==> !failed
  {
    hide SaneParser, Readable, RowsBeyond, ServedOk, Covering, Beyond, PageLength, HeaderOk, BackwardOk, IsBatch;
    rows, failed := [], false;
    IndexIsReadable(index, file);
    ghost var l := Lens(env, generation, needle, file, index.catalog.pool);
    var cursor: Option<nat>, more := None, true;
    ghost var at := index.Start();
    while more
      invariant at == (if cursor.Some? then cursor.value else index.Start())
      invariant more ==> cursor.None? || index.Start() <= at <= index.committed
      invariant RowsBeyond(l, f, index.entries, index.Start(), false)
        == rows + RowsBeyond(l, f, index.entries, at, false)
      invariant !more ==> RowsBeyond(l, f, index.entries, at, false) == []
      decreases more, index.committed - at
    {
      var q := Query(f, needle, After, if cursor.Some? then Some(Cursor(generation, cursor)) else None, limit);
      var reply, w := ServePage(env, index, generation, name, file, q);
      if reply.Failed? {
        assert reply.error == Unavailable;
        failed := true;
        return;
      }
      var page := reply.page;
      ForwardStep(l, w, f, at, page.rows, page.cursor, page.more);
      assert rows + (page.rows + RowsBeyond(l, f, index.entries, page.cursor, false))
          == (rows + page.rows) + RowsBeyond(l, f, index.entries, page.cursor, false);
      rows := rows + page.rows;
      at, cursor, more := page.cursor, Some(page.cursor), page.more;
    }
  }

  lemma ForwardStep(l: Lens, w: View, f: Filter, b: nat, rows: seq<LogRow>, cursor: nat, more: bool)
    requires Readable(w.entries, l.pool, l.file) && ServedOk(l, w, f, b, false, rows, cursor, more)
    ensures RowsBeyond(l, f, w.entries, b, false) == rows + RowsBeyond(l, f, w.entries, cursor, false)
    ensures if more then b < cursor <= w.committed else RowsBeyond(l, f, w.entries, cursor, false) == []
  {
    hide Readable;
  }
}
