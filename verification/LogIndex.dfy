/**
 The bounded in-memory index over one log file: `Index` splits appended bytes into
 records, keeps the newest ones with their interned targets and posting lists, and
 answers filtered page scans. `LineStream.Retained` says what it must hold.
 */
module LogIndex {
  import opened Prelude
  import opened LineStream

  const MAX_BATCH: nat := 1_048_576
  const MAX_TARGET: nat := 4096
  const MAX_TARGET_BYTES: nat := 8_388_608
  const MAX_PAGE: nat := 200
  const MAX_SCAN: nat := 2_000

  datatype Level = Trace | Debug | Info | Warn | Error | Fatal | Unknown

  function Ordinal(level: Level): (n: nat)
    ensures n < 7
  {
    match level
    case Trace => 0
    case Debug => 1
    case Info => 2
    case Warn => 3
    case Error => 4
    case Fatal => 5
    case Unknown => 6
  }

  /** What a JSON object on one line says about itself; other lines have no `Fields`. */
  datatype Fields = Fields(timestamp: Option<int>, level: Option<Level>, target: Option<Text>)

  type Parser = seq<byte> -> Option<Fields>

  /** `target` is an interned symbol: a position in the text pool. */
  datatype Entry = Entry(start: nat, end: nat, timestamp: Option<int>, level: Level, target: nat,
                         unparsed: bool, truncated: bool)

  // ---------- The text pool and the posting lists ----------

  datatype Selector = ByTarget(key: nat) | ByLevel(level: Level)

  predicate Picks(sel: Selector, e: Entry) {
    match sel
    case ByTarget(key) => e.target == key
    case ByLevel(level) => e.level == level
  }

  /** The starts of the picked entries, in file order. */
  function Posting(es: seq<Entry>, sel: Selector): seq<nat> {
    if es == [] then []
    else
      var e := es[|es| - 1];
      Posting(es[..|es| - 1], sel) + (if Picks(sel, e) then [e.start] else [])
  }

  function Lookup(postings: map<nat, seq<nat>>, key: nat): seq<nat> {
    if key in postings then postings[key] else []
  }

  function Find(pool: seq<Text>, name: Text): (r: Option<nat>)
    ensures r.Some? ==> r.value < |pool| && pool[r.value] == name
    ensures r.None? ==> name !in pool
  {
    if pool == [] then None
    else if pool[|pool| - 1] == name then Some(|pool| - 1)
    else Find(pool[..|pool| - 1], name)
  }

  function TotalBytes(pool: seq<Text>): nat {
    if pool == [] then 0 else TotalBytes(pool[..|pool| - 1]) + |pool[|pool| - 1]|
  }

  ghost predicate Distinct(pool: seq<Text>) {
    forall i, j | 0 <= i < j < |pool| :: pool[i] != pool[j]
  }

  /** The pool of interned target texts and the posting lists; rebuilt together. */
  datatype Catalog = Catalog(pool: seq<Text>, postings: map<nat, seq<nat>>, levels: seq<seq<nat>>, bytes: nat) {
    /** The symbol of `name`, interning it when it is new. */
    function Key(name: Text): nat {
      var found := Find(pool, name);
      if found.Some? then found.value else |pool|
    }

    function Intern(name: Text): Catalog {
      if Find(pool, name).Some? then this else this.(pool := pool + [name], bytes := bytes + |name|)
    }

    function File(e: Entry): Catalog
      requires |levels| == 7
    {
      var n := Ordinal(e.level);
      this.(postings := postings[e.target := Lookup(postings, e.target) + [e.start]],
            levels := levels[n := levels[n] + [e.start]])
    }
  }

  const EMPTY_CATALOG := Catalog([], map[], [[], [], [], [], [], [], []], 0)

  /** Every derived structure agrees with the entries. */
  ghost predicate Indexed(es: seq<Entry>, c: Catalog) {
    && Distinct(c.pool)
    && c.bytes == TotalBytes(c.pool)
    && |c.levels| == 7
    && (forall i | 0 <= i < |es| :: es[i].target < |c.pool|)
    && (forall key: nat :: Lookup(c.postings, key) == Posting(es, ByTarget(key)))
    && (forall level: Level :: c.levels[Ordinal(level)] == Posting(es, ByLevel(level)))
  }

  lemma IndexedShape(es: seq<Entry>, c: Catalog)
    requires Indexed(es, c)
    ensures |c.levels| == 7 && c.bytes == TotalBytes(c.pool) && Distinct(c.pool)
    ensures forall i | 0 <= i < |es| :: es[i].target < |c.pool|
  {
  }

  lemma EmptyIsIndexed()
    ensures Indexed([], EMPTY_CATALOG)
  {
  }

  lemma InternKeepsIndexed(es: seq<Entry>, c: Catalog, name: Text)
    requires Indexed(es, c)
    ensures Indexed(es, c.Intern(name))
    ensures c.Key(name) < |c.Intern(name).pool| && c.Intern(name).pool[c.Key(name)] == name
    ensures c.pool <= c.Intern(name).pool
  {
    assert (c.pool + [name])[..|c.pool|] == c.pool;
  }

  lemma PostingSnoc(es: seq<Entry>, e: Entry, sel: Selector)
    ensures Posting(es + [e], sel) == Posting(es, sel) + if Picks(sel, e) then [e.start] else []
  {
    assert (es + [e])[..|es|] == es;
  }

  lemma FileKeepsIndexed(es: seq<Entry>, c: Catalog, e: Entry)
    requires Indexed(es, c) && e.target < |c.pool|
    ensures Indexed(es + [e], c.File(e))
  {
    hide Posting;
    var c' := c.File(e);
    forall key: nat
      ensures Lookup(c'.postings, key) == Posting(es + [e], ByTarget(key))
    {
      PostingSnoc(es, e, ByTarget(key));
    }
    forall level: Level
      ensures c'.levels[Ordinal(level)] == Posting(es + [e], ByLevel(level))
    {
      PostingSnoc(es, e, ByLevel(level));
    }
  }

  /** Interning a target and filing its entry. */
  lemma FiledKeepsIndexed(es: seq<Entry>, c: Catalog, name: Text, e: Entry)
    requires Indexed(es, c) && e.target == c.Key(name)
    ensures var more := c.Intern(name);
      && |more.levels| == 7 && Indexed(es + [e], more.File(e)) && more.File(e).pool == more.pool
      && c.pool <= more.pool && e.target < |more.pool| && more.pool[e.target] == name
      && more.File(e).bytes == (if Find(c.pool, name).Some? then c.bytes else c.bytes + |name|)
  {
    hide Indexed, Find, Lookup;
    InternKeepsIndexed(es, c, name);
    IndexedShape(es, c.Intern(name));
    FileKeepsIndexed(es, c.Intern(name), e);
  }

  lemma {:induction false} TotalBytesOf(a: seq<Text>, b: seq<Text>)
    ensures TotalBytes(a + b) == TotalBytes(a) + TotalBytes(b)
  {
    if b == [] {
      assert a + b == a;
    } else {
      assert (a + b)[..|a + b| - 1] == a + b[..|b| - 1];
      TotalBytesOf(a, b[..|b| - 1]);
    }
  }

  lemma TotalBytesWithout(pool: seq<Text>, i: nat)
    requires i < |pool|
    ensures TotalBytes(pool) == TotalBytes(pool[..i] + pool[i + 1..]) + |pool[i]|
  {
    assert pool == pool[..i] + ([pool[i]] + pool[i + 1..]);
    TotalBytesOf(pool[..i], [pool[i]] + pool[i + 1..]);
    TotalBytesOf([pool[i]], pool[i + 1..]);
    TotalBytesOf(pool[..i], pool[i + 1..]);
    assert TotalBytes([pool[i]]) == |pool[i]|;
  }

  /** A pool of distinct texts taken from another pool is no larger than it. */
  lemma {:induction false} SubpoolIsSmaller(sub: seq<Text>, pool: seq<Text>)
    requires Distinct(sub) && forall i | 0 <= i < |sub| :: sub[i] in pool
    ensures TotalBytes(sub) <= TotalBytes(pool)
  {
    if sub != [] {
      var n := |sub| - 1;
      var i :| 0 <= i < |pool| && pool[i] == sub[n];
      var rest := pool[..i] + pool[i + 1..];
      TotalBytesWithout(pool, i);
      forall j | 0 <= j < n ensures sub[..n][j] in rest {
        var k :| 0 <= k < |pool| && pool[k] == sub[j];
        assert rest[if k < i then k else k - 1] == sub[j];
      }
      SubpoolIsSmaller(sub[..n], rest);
    }
  }

  function EntryStarts(es: seq<Entry>): (r: seq<nat>)
    ensures |r| == |es|
    ensures forall i | 0 <= i < |es| :: r[i] == es[i].start
  {
    seq(|es|, i requires 0 <= i < |es| => es[i].start)
  }

  /** Two entries, each with its own pool, that say the same about the same record. */
  ghost predicate SameRecord(e: Entry, pool: seq<Text>, f: Entry, pool': seq<Text>) {
    && e.target < |pool| && f.target < |pool'|
    && pool[e.target] == pool'[f.target]
    && e.(target := 0) == f.(target := 0)
  }

  ghost predicate SameRecords(es: seq<Entry>, pool: seq<Text>, fs: seq<Entry>, pool': seq<Text>) {
    && |es| == |fs|
    && forall i | 0 <= i < |es| :: SameRecord(es[i], pool, fs[i], pool')
  }

  lemma SameRecordsPush(es: seq<Entry>, pool: seq<Text>, fs: seq<Entry>, pool': seq<Text>, e: Entry, f: Entry,
                        more: seq<Text>)
    requires SameRecords(es, pool, fs, pool') && pool <= more && SameRecord(e, more, f, pool')
    ensures SameRecords(es + [e], more, fs + [f], pool')
  {
  }

  function TargetOf(parse: Parser, line: seq<byte>): Text {
    if parse(line).Some? && parse(line).value.target.Some? then parse(line).value.target.value else []
  }

  /** The entry records exactly what the line says, except that its target may be left out,
      and then the entry says so. `Kept` tells when that does not happen. */
  ghost predicate Describes(parse: Parser, e: Entry, pool: seq<Text>, line: Line) {
    var fields, named := parse(line.content), TargetOf(parse, line.content);
    && e.start == line.start && e.end == line.end
    && e.timestamp == (if fields.Some? then fields.value.timestamp else None)
    && e.level == (if fields.Some? && fields.value.level.Some? then fields.value.level.value else Unknown)
    && e.unparsed == fields.None?
    && e.target < |pool|
    && pool[e.target] == (if e.truncated then [] else named)
    && (|named| > MAX_TARGET ==> e.truncated)
  }

  /** The entry made of a line's fields and the symbol chosen for its target. */
  function EntryOf(start: nat, end: nat, fields: Option<Fields>, key: nat, cut: bool): Entry {
    Entry(start, end, if fields.Some? then fields.value.timestamp else None,
          if fields.Some? && fields.value.level.Some? then fields.value.level.value else Unknown,
          key, fields.None?, cut)
  }

  lemma EntryDescribes(parse: Parser, l: Line, key: nat, cut: bool, pool: seq<Text>)
    requires key < |pool| && pool[key] == (if cut then [] else TargetOf(parse, l.content))
    requires |TargetOf(parse, l.content)| > MAX_TARGET ==> cut
    ensures Describes(parse, EntryOf(l.start, l.end, parse(l.content), key, cut), pool, l)
  {
  }

  /** The entries describe `lines` one for one. */
  ghost predicate DescribeAll(parse: Parser, es: seq<Entry>, pool: seq<Text>, lines: seq<Line>) {
    && |es| == |lines|
    && forall i | 0 <= i < |es| :: Describes(parse, es[i], pool, lines[i])
  }

  lemma DescribeAllPush(parse: Parser, es: seq<Entry>, pool: seq<Text>, lines: seq<Line>, e: Entry, more: seq<Text>,
                        line: Line)
    requires DescribeAll(parse, es, pool, lines) && pool <= more && Describes(parse, e, more, line)
    ensures DescribeAll(parse, es + [e], more, lines + [line])
  {
    forall i | 0 <= i < |es| ensures Describes(parse, es[i], more, lines[i]) {
      assert Describes(parse, es[i], pool, lines[i]);
    }
  }

  lemma DescribeAllEvict(parse: Parser, es: seq<Entry>, pool: seq<Text>, lines: seq<Line>, r: nat, es': seq<Entry>,
                         pool': seq<Text>)
    requires DescribeAll(parse, es, pool, lines) && r <= |es| && SameRecords(es', pool', es[r..], pool)
    ensures DescribeAll(parse, es', pool', lines[r..])
  {
    forall i | 0 <= i < |es'| ensures Describes(parse, es'[i], pool', lines[r..][i]) {
      assert Describes(parse, es[r + i], pool, lines[r + i]);
      assert SameRecord(es'[i], pool', es[r..][i], pool);
    }
  }

  lemma DescribedStarts(parse: Parser, es: seq<Entry>, pool: seq<Text>, lines: seq<Line>)
    requires DescribeAll(parse, es, pool, lines)
    ensures EntryStarts(es) == Starts(lines)
  {
    forall i | 0 <= i < |es| ensures EntryStarts(es)[i] == Starts(lines)[i] {
      assert Describes(parse, es[i], pool, lines[i]);
    }
  }

  /** One more byte never makes an earlier eviction wrong. */
  lemma StillHeld(base: nat, s: seq<byte>, b: byte, d: nat)
    requires d <= Excess(Starts(Lines(base, s)), Floor(base + |s|))
        || d <= Excess(Starts(Lines(base, s)), Floor(base + |s| + 1))
    ensures d <= Excess(Starts(Lines(base, s)), Floor(base + |s| + 1))
    ensures d <= Excess(Starts(Lines(base, s + [b])), Floor(base + |s| + 1))
  {
    var s' := s + [b];
    assert s'[..|s|] == s;
    LinesOrdered(base, s');
    LinesOrdered(base, s);
    var before, after := Starts(Lines(base, s)), Starts(Lines(base, s'));
    var more := after[|before|..];
    assert after == before + more;
    assert before + [] == before;
    ExcessGrows(before, Floor(base + |s|), [], Floor(base + |s| + 1));
    ExcessGrows(before, Floor(base + |s| + 1), more, Floor(base + |s| + 1));
  }

  // ---------- Which targets are kept ----------

  function ShortTarget(parse: Parser, line: Line): Text {
    var named := TargetOf(parse, line.content);
    if |named| > MAX_TARGET then [] else named
  }

  /** The distinct short targets of some lines. */
  function Vocabulary(parse: Parser, lines: seq<Line>): (words: seq<Text>)
    ensures Distinct(words)
  {
    if lines == [] then [[]]
    else
      var words, t := Vocabulary(parse, lines[..|lines| - 1]), ShortTarget(parse, lines[|lines| - 1]);
      if t in words then words else words + [t]
  }

  /** The distinct short targets of all lines fit the pool together. */
  predicate Roomy(parse: Parser, lines: seq<Line>) {
    TotalBytes(Vocabulary(parse, lines)) <= MAX_TARGET_BYTES
  }

  /** Only targets that are too long are left out. */
  ghost predicate Uncut(parse: Parser, es: seq<Entry>, lines: seq<Line>) {
    forall i | 0 <= i < |es| && i < |lines| :: es[i].truncated ==> |TargetOf(parse, lines[i].content)| > MAX_TARGET
  }

  ghost predicate Worded(parse: Parser, pool: seq<Text>, lines: seq<Line>) {
    forall i | 0 <= i < |pool| :: pool[i] in Vocabulary(parse, lines)
  }

  /** The pool holds targets of `lines` only, and when they fit together none is cut. */
  ghost predicate Kept(parse: Parser, es: seq<Entry>, pool: seq<Text>, lines: seq<Line>, dropped: nat) {
    && Worded(parse, pool, lines)
    && (Roomy(parse, lines) && dropped <= |lines| ==> Uncut(parse, es, lines[dropped..]))
  }

  lemma VocabularySnoc(parse: Parser, lines: seq<Line>, l: Line)
    ensures var words, more := Vocabulary(parse, lines), Vocabulary(parse, lines + [l]);
      && more == (if ShortTarget(parse, l) in words then words else words + [ShortTarget(parse, l)])
      && TotalBytes(words) <= TotalBytes(more)
  {
    assert (lines + [l])[..|lines|] == lines;
    var words, t := Vocabulary(parse, lines), ShortTarget(parse, l);
    assert (words + [t])[..|words|] == words;
  }

  lemma {:induction false} EmptyIsAWord(parse: Parser, lines: seq<Line>)
    ensures [] in Vocabulary(parse, lines)
  {
    if lines != [] {
      EmptyIsAWord(parse, lines[..|lines| - 1]);
    }
  }

  /** While the vocabulary fits, so does the next target beside the pool. */
  lemma RoomForNext(parse: Parser, pool: seq<Text>, lines: seq<Line>, l: Line)
    requires Worded(parse, pool, lines) && Distinct(pool) && ShortTarget(parse, l) !in pool
    ensures Roomy(parse, lines + [l]) ==> TotalBytes(pool) + |ShortTarget(parse, l)| <= MAX_TARGET_BYTES
  {
    hide Vocabulary, ShortTarget;
    var t := ShortTarget(parse, l);
    var next := pool + [t];
    VocabularySnoc(parse, lines, l);
    assert next[..|pool|] == pool;
    SubpoolIsSmaller(next, Vocabulary(parse, lines + [l]));
  }

  lemma KeptPush(parse: Parser, es: seq<Entry>, pool: seq<Text>, lines: seq<Line>, dropped: nat, l: Line, e: Entry,
                 more: seq<Text>)
    requires Kept(parse, es, pool, lines, dropped) && dropped <= |lines| && |es| == |lines| - dropped
    requires forall i | 0 <= i < |more| :: more[i] in pool || more[i] == [] || more[i] == ShortTarget(parse, l)
    requires Roomy(parse, lines + [l]) && e.truncated ==> |TargetOf(parse, l.content)| > MAX_TARGET
    ensures Kept(parse, es + [e], more, lines + [l], dropped)
  {
    hide Vocabulary, TotalBytes, TargetOf, ShortTarget;
    VocabularySnoc(parse, lines, l);
    EmptyIsAWord(parse, lines);
    assert (lines + [l])[dropped..] == lines[dropped..] + [l];
  }

  /** A pool that has no room for the next target shows that not all targets fit. */
  lemma NotRoomy(parse: Parser, es: seq<Entry>, c: Catalog, lines: seq<Line>, dropped: nat, l: Line)
    requires Indexed(es, c) && Kept(parse, es, c.pool, lines, dropped)
    requires Find(c.pool, ShortTarget(parse, l)).None? && c.bytes + |ShortTarget(parse, l)| > MAX_TARGET_BYTES
    ensures !Roomy(parse, lines + [l])
  {
    hide Indexed, Roomy, Worded, ShortTarget, Uncut, TotalBytes;
    IndexedShape(es, c);
    RoomForNext(parse, c.pool, lines, l);
  }

  /** The entries and the pool after the next line, given the target chosen for it. */
  lemma HoldsNext(parse: Parser, es: seq<Entry>, c: Catalog, lines: seq<Line>, dropped: nat, l: Line, e: Entry,
                  target: Text)
    requires dropped <= |lines| && DescribeAll(parse, es, c.pool, lines[dropped..])
    requires Kept(parse, es, c.pool, lines, dropped)
    requires c.pool <= c.Intern(target).pool && Describes(parse, e, c.Intern(target).pool, l)
    requires target == [] || (target == TargetOf(parse, l.content) && |target| <= MAX_TARGET)
    requires Roomy(parse, lines + [l]) && e.truncated ==> |TargetOf(parse, l.content)| > MAX_TARGET
    ensures DescribeAll(parse, es + [e], c.Intern(target).pool, (lines + [l])[dropped..])
    ensures Kept(parse, es + [e], c.Intern(target).pool, lines + [l], dropped)
  {
    hide Describes, Kept, Roomy, TargetOf;
    assert (lines + [l])[dropped..] == lines[dropped..] + [l];
    DescribeAllPush(parse, es, c.pool, lines[dropped..], e, c.Intern(target).pool, l);
    KeptPush(parse, es, c.pool, lines, dropped, l, e, c.Intern(target).pool);
  }

  lemma KeptEvict(parse: Parser, es: seq<Entry>, pool: seq<Text>, lines: seq<Line>, dropped: nat, r: nat,
                  es': seq<Entry>, pool': seq<Text>)
    requires Kept(parse, es, pool, lines, dropped) && dropped + r <= |lines| && r <= |es|
    requires SameRecords(es', pool', es[r..], pool) && forall i | 0 <= i < |pool'| :: pool'[i] in pool
    ensures Kept(parse, es', pool', lines, dropped + r)
  {
    hide Vocabulary, TotalBytes, TargetOf;
    forall i | 0 <= i < |es'| && i < |lines| - dropped - r
      ensures es'[i].truncated == es[r + i].truncated && lines[dropped + r..][i] == lines[dropped..][r + i]
    {
      assert SameRecord(es'[i], pool', es[r..][i], pool);
    }
  }

  /** How many lines do not parse as records. */
  function Unparsed(parse: Parser, lines: seq<Line>): nat {
    if lines == [] then 0
    else Unparsed(parse, lines[..|lines| - 1]) + if parse(lines[|lines| - 1].content).None? then 1 else 0
  }

  predicate IsLong(parse: Parser, l: Line) {
    |TargetOf(parse, l.content)| > MAX_TARGET
  }

  /** How many lines name a target that is too long. */
  function LongTargets(parse: Parser, lines: seq<Line>): nat {
    if lines == [] then 0
    else LongTargets(parse, lines[..|lines| - 1]) + if IsLong(parse, lines[|lines| - 1]) then 1 else 0
  }

  /** Every target that is too long was cut, and while all others fit the pool together, no
      other was. */
  ghost predicate CutsOk(parse: Parser, lines: seq<Line>, cuts: nat) {
    LongTargets(parse, lines) <= cuts <= |lines| && (Roomy(parse, lines) ==> cuts == LongTargets(parse, lines))
  }

  /** The same for one line after `lines`, of which `n` targets were cut. */
  ghost predicate CutFits(parse: Parser, lines: seq<Line>, l: Line, n: int) {
    && 0 <= n <= 1 && (IsLong(parse, l) ==> n == 1)
    && (Roomy(parse, lines + [l]) && n == 1 ==> IsLong(parse, l))
  }

  lemma CutsSnoc(parse: Parser, lines: seq<Line>, cuts: nat, l: Line, cutsNow: nat)
    requires CutsOk(parse, lines, cuts) && CutFits(parse, lines, l, cutsNow - cuts)
    ensures CutsOk(parse, lines + [l], cutsNow)
  {
    hide Vocabulary, TotalBytes, IsLong;
    VocabularySnoc(parse, lines, l);
    assert (lines + [l])[..|lines|] == lines;
  }

  /** What the counters say: the records that do not parse, those that are cut or skipped,
      and whether anything before the end of the stream is missing from the index. */
  ghost predicate Tally(parse: Parser, base: nat, s: seq<byte>, dropped: nat, cuts: nat, malformed: nat, truncated: nat,
                        partial: bool) {
    && malformed == Unparsed(parse, Lines(base, s))
    && truncated == Overruns(base, s) + cuts && CutsOk(parse, Lines(base, s), cuts)
    && (partial <==> base != 0 || dropped > 0 || Overruns(base, s) > 0)
  }

  /** The last byte of `s + [b]` completes a record. */
  predicate Completes(base: nat, s: seq<byte>, b: byte) {
    b == NEWLINE && (LineStart(s) > 0 || base == 0) && |s| - LineStart(s) <= MAX_LINE
  }

  function NextLine(base: nat, s: seq<byte>): Line {
    Line(base + LineStart(s), base + |s| + 1, s[LineStart(s)..])
  }

  /** One more byte, with the record it completes counted and evictions noted. */
  lemma TallySnoc(parse: Parser, base: nat, s: seq<byte>, dropped: nat, cuts: nat, malformed: nat, truncated: nat,
                  partial: bool, b: byte, now: nat, cutsNow: nat)
    requires Tally(parse, base, s, dropped, cuts, malformed, truncated, partial) && dropped <= now
    requires if Completes(base, s, b) then CutFits(parse, Lines(base, s), NextLine(base, s), cutsNow - cuts)
             else cutsNow == cuts
    ensures var k := LineStart(s);
      var added := if Completes(base, s, b) && parse(NextLine(base, s).content).None? then 1 else 0;
      var overrun := b != NEWLINE && (k > 0 || base == 0) && |s| - k == MAX_LINE;
      Tally(parse, base, s + [b], now, cutsNow, malformed + added,
            truncated + (cutsNow - cuts) + if overrun then 1 else 0, partial || now > dropped || overrun)
  {
    hide Lines, LineStart, Overruns, Unparsed, CutsOk, CutFits;
    LinesSnoc(base, s, b);
    OverrunsSnoc(base, s, b);
    if Completes(base, s, b) {
      UnparsedSnoc(parse, Lines(base, s), NextLine(base, s));
      CutsSnoc(parse, Lines(base, s), cuts, NextLine(base, s), cutsNow);
      CutOne(parse, Lines(base, s), NextLine(base, s), cutsNow - cuts);
    }
  }

  lemma CutOne(parse: Parser, lines: seq<Line>, l: Line, n: int)
    requires CutFits(parse, lines, l, n)
    ensures n >= 0
  {
  }

  lemma UnparsedSnoc(parse: Parser, lines: seq<Line>, l: Line)
    ensures Unparsed(parse, lines + [l]) == Unparsed(parse, lines) + if parse(l.content).None? then 1 else 0
  {
    assert (lines + [l])[..|lines|] == lines;
  }

  lemma TallyEvict(parse: Parser, base: nat, s: seq<byte>, dropped: nat, cuts: nat, malformed: nat, truncated: nat,
                   partial: bool, now: nat)
    requires Tally(parse, base, s, dropped, cuts, malformed, truncated, partial) && dropped <= now
    ensures Tally(parse, base, s, now, cuts, malformed, truncated, partial || now > dropped)
  {
  }

  /** Before the first byte. */
  lemma EmptyIsHeld(parse: Parser, base: nat)
    ensures LineStart([]) == 0 && DescribeAll(parse, [], [], Retained(base, []))
    ensures var gone := Excess(Starts(Lines(base, [])), Floor(base));
      && Kept(parse, [], [], Lines(base, []), gone)
      && Tally(parse, base, [], gone, 0, 0, 0, base != 0)
  {
    assert Lines(base, []) == [] && Starts([]) == [];
    assert Overruns(base, []) == 0 && Unparsed(parse, []) == 0 && LongTargets(parse, []) == 0;
  }

  class Index {
    const parse: Parser
    var entries: seq<Entry>
    var catalog: Catalog
    var pending: seq<byte>
    var lineStart: nat
    var nextRead: nat
    var committed: nat
    var skipping: bool
    var malformed: nat
    var truncated: nat
    var partial: bool
    ghost var base: nat
    ghost var stream: seq<byte>
    /** How many complete lines are no longer held. */
    ghost var dropped: nat
    /** How many records were entered with their target cut away. */
    ghost var cuts: nat

    /** The reading position agrees with the bytes read so far. */
    ghost predicate Framed()
      reads this
    {
      var k := LineStart(stream);
      && nextRead == base + |stream|
      && committed == lineStart == base + k
      && skipping == ((k == 0 && base != 0) || |stream| - k > MAX_LINE)
      && pending == (if skipping then [] else stream[k..])
    }

    ghost predicate Consistent()
      reads `entries, `catalog
    {
      Indexed(entries, catalog) && catalog.bytes <= MAX_TARGET_BYTES
    }

    /** The entries describe `lines`, the oldest `dropped` ones excepted, and an eviction
        now would give up at least those. */
    ghost predicate Holds(lines: seq<Line>)
      reads this
    {
      && dropped <= Excess(Starts(lines), Floor(nextRead))
      && DescribeAll(parse, entries, catalog.pool, lines[dropped..])
      && Kept(parse, entries, catalog.pool, lines, dropped)
    }

    /** Between two bytes of one batch. */
    ghost predicate Reading()
      reads this
    {
      && Framed() && Consistent() && Holds(Lines(base, stream))
      && Tally(parse, base, stream, dropped, cuts, malformed, truncated, partial)
    }

    /** Between two appends: the entries describe `Retained(base, stream)` one for one. */
    ghost predicate Valid()
      reads this
    {
      var gone := Excess(Starts(Lines(base, stream)), Floor(nextRead));
      && Framed() && Consistent() && DescribeAll(parse, entries, catalog.pool, Retained(base, stream))
      && Kept(parse, entries, catalog.pool, Lines(base, stream), gone)
      && Tally(parse, base, stream, gone, cuts, malformed, truncated, partial)
    }

    constructor (parse: Parser, start: nat)
      ensures Valid() && base == start && stream == [] && this.parse == parse
    {
      hide Indexed, DescribeAll, Kept, Tally, Retained, LineStart, Lines, Starts, Excess, Floor;
      EmptyIsIndexed();
      EmptyIsHeld(parse, start);
      this.parse := parse;
      entries, catalog, pending := [], EMPTY_CATALOG, [];
      lineStart, nextRead, committed := start, start, start;
      skipping, partial := start != 0, start != 0;
      malformed, truncated := 0, 0;
      base, stream, dropped, cuts := start, [], 0, 0;
    }

    /** First offset still indexed. */
    function Start(): nat
      reads this
    {
      if entries == [] then committed else entries[0].start
    }

    /** Drops what left the window and rebuilds pool and postings around the rest. */
    method Evict()
      requires Indexed(entries, catalog)
      modifies `entries, `catalog, `partial
      ensures Indexed(entries, catalog)
      ensures catalog.bytes <= old(catalog.bytes)
      ensures var r := Excess(EntryStarts(old(entries)), Floor(nextRead));
        && SameRecords(entries, catalog.pool, old(entries)[r..], old(catalog.pool))
        && partial == (old(partial) || r > 0)
      ensures forall i | 0 <= i < |catalog.pool| :: catalog.pool[i] in old(catalog.pool)
    {
      hide Indexed, Distinct, TotalBytes, Excess, EntryStarts;
      IndexedShape(entries, catalog);
      var r := PopOutdated(Floor(nextRead));
      if r > 0 {
        partial := true;
        entries, catalog := Rebuild(entries);
      }
    }

    /** Pops entries off the front until the rest fits both bounds. */
    method PopOutdated(floor: nat) returns (r: nat)
      modifies `entries
      ensures r == Excess(EntryStarts(old(entries)), floor)
      ensures r <= |old(entries)| && entries == old(entries)[r..]
    {
      r := 0;
      while |entries| > MAX_ENTRIES || (entries != [] && entries[0].start < floor)
        invariant r <= |old(entries)| && entries == old(entries)[r..]
        invariant Excess(EntryStarts(old(entries)), floor) == r + Excess(EntryStarts(entries), floor)
        decreases |entries|
      {
        assert EntryStarts(entries)[1..] == EntryStarts(entries[1..]);
        entries := entries[1..];
        r := r + 1;
      }
    }

    /** Re-interns the retained entries into a fresh pool. */
    method Rebuild(kept: seq<Entry>) returns (rebuilt: seq<Entry>, remade: Catalog)
      requires forall i | 0 <= i < |kept| :: kept[i].target < |catalog.pool|
      ensures SameRecords(rebuilt, remade.pool, kept, catalog.pool)
      ensures Indexed(rebuilt, remade)
      ensures remade.bytes <= TotalBytes(catalog.pool)
      ensures forall i | 0 <= i < |remade.pool| :: remade.pool[i] in catalog.pool
    {
      hide Indexed;
      EmptyIsIndexed();
      rebuilt, remade := [], EMPTY_CATALOG;
      for i := 0 to |kept|
        invariant SameRecords(rebuilt, remade.pool, kept[..i], catalog.pool)
        invariant Indexed(rebuilt, remade)
        invariant forall j | 0 <= j < |remade.pool| :: remade.pool[j] in catalog.pool
      {
        var name := catalog.pool[kept[i].target];
        var entry := kept[i].(target := remade.Key(name));
        InternKeepsIndexed(rebuilt, remade, name);
        SameRecordsPush(rebuilt, remade.pool, kept[..i], catalog.pool, entry, kept[i], remade.Intern(name).pool);
        assert kept[..i] + [kept[i]] == kept[..i + 1];
        remade := remade.Intern(name);
        FileKeepsIndexed(rebuilt, remade, entry);
        IndexedShape(rebuilt, remade);
        remade := remade.File(entry);
        rebuilt := rebuilt + [entry];
      }
      assert kept[..|kept|] == kept;
      IndexedShape(rebuilt, remade);
      SubpoolIsSmaller(remade.pool, catalog.pool);
    }

    /** Evicts, given the lines that the entries describe. */
    method EvictFrom(ghost lines: seq<Line>)
      requires Consistent() && Holds(lines)
      modifies `entries, `catalog, `partial, `dropped
      ensures Consistent() && Holds(lines) && dropped == Excess(Starts(lines), Floor(nextRead))
      ensures dropped >= old(dropped) && (partial <==> old(partial) || dropped > old(dropped))
    {
      hide Indexed, DescribeAll, Kept, Excess, Floor;
      ghost var kept := lines[dropped..];
      DescribedStarts(parse, entries, catalog.pool, kept);
      assert Starts(kept) == Starts(lines)[dropped..];
      ExcessResumes(Starts(lines), Floor(nextRead), dropped);
      ghost var es, pool := entries, catalog.pool;
      ghost var r := Excess(EntryStarts(es), Floor(nextRead));
      Evict();
      DescribeAllEvict(parse, es, pool, kept, r, entries, catalog.pool);
      KeptEvict(parse, es, pool, lines, dropped, r, entries, catalog.pool);
      dropped := dropped + r;
      assert kept[r..] == lines[dropped..];
    }

    /** Adds the record of one complete line. `lines` are the ones before it. */
    method Insert(line: seq<byte>, ghost lines: seq<Line>)
      requires Consistent() && Holds(lines)
      modifies `entries, `catalog, `partial, `malformed, `truncated, `dropped, `cuts
      ensures Consistent()
      ensures dropped <= Excess(Starts(lines), Floor(nextRead))
      ensures var more := lines + [Line(lineStart, nextRead, line)];
        && DescribeAll(parse, entries, catalog.pool, more[dropped..])
        && Kept(parse, entries, catalog.pool, more, dropped)
      ensures malformed == old(malformed) + if parse(line).None? then 1 else 0
      ensures cuts >= old(cuts) && truncated - old(truncated) == cuts - old(cuts)
      ensures CutFits(parse, lines, Line(lineStart, nextRead, line), cuts - old(cuts))
      ensures dropped >= old(dropped) && (partial <==> old(partial) || dropped > old(dropped))
      ensures cuts > old(cuts) && |TargetOf(parse, line)| <= MAX_TARGET ==>
        dropped == Excess(Starts(lines), Floor(nextRead)) && catalog.bytes + |TargetOf(parse, line)| > MAX_TARGET_BYTES
      ensures entries != [] && cuts == old(cuts) + if entries[|entries| - 1].truncated then 1 else 0
    {
      hide Indexed, DescribeAll, Kept, Roomy, Worded, Starts, Excess, Floor, Find, Describes, TotalBytes;
      ghost var added := Line(lineStart, nextRead, line);
      var fields, raw := parse(line), TargetOf(parse, line);
      var cut := |raw| > MAX_TARGET;
      var target := if cut then [] else raw;
      if Find(catalog.pool, target).None? && catalog.bytes + |target| > MAX_TARGET_BYTES {
        NotRoomy(parse, entries, catalog, lines, dropped, added);
        EvictFrom(lines);
        if catalog.bytes + |target| > MAX_TARGET_BYTES {
          target, cut := [], true;
        }
      }
      Push(line, fields, target, cut, lines);
    }

    /** Interns the chosen target and files the entry. */
    method Push(line: seq<byte>, fields: Option<Fields>, target: Text, cut: bool, ghost lines: seq<Line>)
      requires Consistent() && dropped <= |lines| && DescribeAll(parse, entries, catalog.pool, lines[dropped..])
      requires Kept(parse, entries, catalog.pool, lines, dropped)
      requires Find(catalog.pool, target).Some? || catalog.bytes + |target| <= MAX_TARGET_BYTES
      requires fields == parse(line) && target == (if cut then [] else TargetOf(parse, line))
      requires |TargetOf(parse, line)| > MAX_TARGET ==> cut
      requires cut && Roomy(parse, lines + [Line(lineStart, nextRead, line)]) ==> |TargetOf(parse, line)| > MAX_TARGET
      modifies `entries, `catalog, `malformed, `truncated, `cuts
      ensures Consistent()
      ensures var more := lines + [Line(lineStart, nextRead, line)];
        && DescribeAll(parse, entries, catalog.pool, more[dropped..])
        && Kept(parse, entries, catalog.pool, more, dropped)
      ensures malformed == old(malformed) + if parse(line).None? then 1 else 0
      ensures cuts == old(cuts) + (if cut then 1 else 0) && truncated - old(truncated) == cuts - old(cuts)
      ensures entries != [] && entries[|entries| - 1].truncated == cut && catalog.bytes >= old(catalog.bytes)
    {
      hide Indexed, DescribeAll, Kept, Roomy, Find, Describes, TargetOf, ShortTarget, Catalog.Intern, Catalog.File;
      hide Catalog.Key;
      malformed := malformed + if fields.None? then 1 else 0;
      truncated := truncated + if cut then 1 else 0;
      cuts := cuts + if cut then 1 else 0;
      var entry := EntryOf(lineStart, nextRead, fields, catalog.Key(target), cut);
      FiledKeepsIndexed(entries, catalog, target, entry);
      EntryDescribes(parse, Line(lineStart, nextRead, line), catalog.Key(target), cut, catalog.Intern(target).pool);
      HoldsNext(parse, entries, catalog, lines, dropped, Line(lineStart, nextRead, line), entry, target);
      entries, catalog := entries + [entry], catalog.Intern(target).File(entry);
    }

    /** One turn of the loop in `Append`. */
    method Feed(b: byte)
      requires Reading()
      modifies this
      ensures Reading() && stream == old(stream) + [b] && base == old(base)
    {
      if b == NEWLINE {
        FeedNewline();
      } else {
        FeedOther(b);
      }
    }

    /** A newline ends the line that is pending or being skipped. */
    method FeedNewline()
      requires Reading()
      modifies this
      ensures Reading() && stream == old(stream) + [NEWLINE] && base == old(base)
    {
      hide Framed, Consistent, Holds, Tally, Lines;
      if skipping {
        EndSkipped();
      } else {
        EndLine();
      }
      Commit();
    }

    /** The line that a newline would complete now. */
    lemma PendingIsNext()
      requires Framed() && !skipping
      ensures Completes(base, stream, NEWLINE) && NextLine(base, stream) == Line(lineStart, nextRead + 1, pending)
      ensures Lines(base, stream + [NEWLINE]) == Lines(base, stream) + [NextLine(base, stream)]
      ensures nextRead == base + |stream|
    {
      hide Lines, LineStart;
      LinesSnoc(base, stream, NEWLINE);
    }

    /** The pending line is a record. */
    method EndLine()
      requires Reading() && !skipping
      modifies `nextRead, `entries, `catalog, `partial, `malformed, `truncated, `dropped, `cuts
      ensures nextRead == base + |stream| + 1 && Consistent() && Holds(Lines(base, stream + [NEWLINE]))
      ensures Tally(parse, base, stream + [NEWLINE], dropped, cuts, malformed, truncated, partial)
    {
      hide Framed, Consistent, DescribeAll, Kept, LineStart, Lines, Starts, Excess, Floor, Tally, TargetOf, CutFits;
      hide Completes, NextLine;
      PendingIsNext();
      StillHeld(base, stream, NEWLINE, dropped);
      ghost var was, wasCut, counted, cut, flagged := dropped, cuts, malformed, truncated, partial;
      nextRead := nextRead + 1;
      Insert(pending, Lines(base, stream));
      TallySnoc(parse, base, stream, was, wasCut, counted, cut, flagged, NEWLINE, dropped, cuts);
      StillHeld(base, stream, NEWLINE, dropped);
    }

    /** A leading fragment or an overlong line is not. */
    method EndSkipped()
      requires Reading() && skipping
      modifies `nextRead
      ensures nextRead == base + |stream| + 1 && Consistent() && Holds(Lines(base, stream + [NEWLINE]))
      ensures Tally(parse, base, stream + [NEWLINE], dropped, cuts, malformed, truncated, partial)
    {
      hide Indexed, DescribeAll, Kept, LineStart, Lines, Starts, Excess, Floor, Tally;
      LinesSnoc(base, stream, NEWLINE);
      StillHeld(base, stream, NEWLINE, dropped);
      TallySnoc(parse, base, stream, dropped, cuts, malformed, truncated, partial, NEWLINE, dropped, cuts);
      nextRead := nextRead + 1;
    }

    /** What follows the newline starts a new line. */
    method Commit()
      requires nextRead == base + |stream| + 1 && Consistent() && Holds(Lines(base, stream + [NEWLINE]))
      requires Tally(parse, base, stream + [NEWLINE], dropped, cuts, malformed, truncated, partial)
      modifies `pending, `skipping, `committed, `lineStart, `stream
      ensures Reading() && stream == old(stream) + [NEWLINE]
    {
      hide Indexed, DescribeAll, Kept, LineStart, Lines, Starts, Excess, Floor, Tally;
      LinesSnoc(base, stream, NEWLINE);
      pending := [];
      skipping := false;
      committed := nextRead;
      lineStart := nextRead;
      stream := stream + [NEWLINE];
    }

    method FeedOther(b: byte)
      requires Reading() && b != NEWLINE
      modifies this
      ensures Reading() && stream == old(stream) + [b] && base == old(base)
    {
      hide Indexed, DescribeAll, Kept, LineStart, Lines, Starts, Excess, Floor, Tally;
      LinesSnoc(base, stream, b);
      StillHeld(base, stream, b, dropped);
      TallySnoc(parse, base, stream, dropped, cuts, malformed, truncated, partial, b, dropped, cuts);
      nextRead := nextRead + 1;
      if !skipping {
        if |pending| == MAX_LINE {
          pending := [];
          skipping := true;
          truncated := truncated + 1;
          partial := true;
        } else {
          pending := pending + [b];
        }
      }
      stream := stream + [b];
    }

    /** The loop in `Append`. */
    method FeedAll(bytes: seq<byte>)
      requires Reading()
      modifies this
      ensures Reading() && stream == old(stream) + bytes && base == old(base)
    {
      hide Reading;
      for i := 0 to |bytes|
        invariant Reading() && base == old(base)
        invariant stream == old(stream) + bytes[..i]
      {
        Feed(bytes[i]);
        assert bytes[..i] + [bytes[i]] == bytes[..i + 1];
      }
      assert bytes[..|bytes|] == bytes;
    }

    /** Reads the next batch of the file. Refuses a gap or an oversized batch untouched. */
    method Append(offset: nat, bytes: seq<byte>) returns (ok: bool)
      requires Valid()
      modifies this
      ensures Valid() && base == old(base)
      ensures ok <==> (offset == old(nextRead) && |bytes| <= MAX_BATCH)
      ensures stream == if ok then old(stream) + bytes else old(stream)
      ensures !ok ==> unchanged(this)
    {
      hide Indexed, DescribeAll, Kept, LineStart, Lines, Starts, Excess, Floor, Tally;
      if offset != nextRead || |bytes| > MAX_BATCH {
        return false;
      }
      dropped := Excess(Starts(Lines(base, stream)), Floor(nextRead));
      FeedAll(bytes);
      ghost var was, flagged := dropped, partial;
      EvictFrom(Lines(base, stream));
      TallyEvict(parse, base, stream, was, cuts, malformed, truncated, flagged, dropped);
      return true;
    }
  }

  /** While the distinct short targets of the stream fit the pool together, exactly the
      targets that are too long are cut, and every other entry shows its line's own. */
  lemma OnlyLongCut(index: Index, i: nat)
    requires index.Valid() && i < |index.entries| && Roomy(index.parse, Lines(index.base, index.stream))
    ensures var e, named := index.entries[i], TargetOf(index.parse, Retained(index.base, index.stream)[i].content);
      && e.target < |index.catalog.pool|
      && (e.truncated <==> |named| > MAX_TARGET)
      && (|named| <= MAX_TARGET ==> index.catalog.pool[e.target] == named)
  {
    hide Indexed, Lines, LineStart, Starts, Excess, Floor, Roomy, TargetOf, Tally;
    assert Describes(index.parse, index.entries[i], index.catalog.pool, Retained(index.base, index.stream)[i]);
  }

  /** The part of an entry that is a function of the bytes alone. Whether a target still
      fitted the pool may depend on when evictions ran. */
  function Unbatched(e: Entry): Entry {
    e.(target := 0, truncated := false)
  }

  /** However the same bytes were cut into batches, the entries have the same offsets,
      levels and timestamps, and the index says the same about what is missing. While all
      short targets fit the pool together, the entries show the same targets too. */
  lemma BatchingIndependent(a: Index, b: Index)
    requires a.Valid() && b.Valid()
    requires a.base == b.base && a.stream == b.stream && a.parse == b.parse
    ensures |a.entries| == |b.entries|
    ensures forall i | 0 <= i < |a.entries| :: Unbatched(a.entries[i]) == Unbatched(b.entries[i])
    ensures a.committed == b.committed && a.malformed == b.malformed && a.partial == b.partial
    ensures Roomy(a.parse, Lines(a.base, a.stream)) ==>
      SameRecords(a.entries, a.catalog.pool, b.entries, b.catalog.pool) && a.truncated == b.truncated
  {
    hide Indexed, Retained, LineStart, Lines, Excess, Overruns, Kept, Roomy;
    var lines := Retained(a.base, a.stream);
    forall i | 0 <= i < |a.entries| ensures Unbatched(a.entries[i]) == Unbatched(b.entries[i]) {
      assert Describes(a.parse, a.entries[i], a.catalog.pool, lines[i]);
      assert Describes(b.parse, b.entries[i], b.catalog.pool, lines[i]);
    }
    if Roomy(a.parse, Lines(a.base, a.stream)) {
      forall i | 0 <= i < |a.entries| ensures SameRecord(a.entries[i], a.catalog.pool, b.entries[i], b.catalog.pool) {
        SameTargets(a, b, i);
      }
    }
  }

  lemma SameTargets(a: Index, b: Index, i: nat)
    requires a.Valid() && b.Valid() && Roomy(a.parse, Lines(a.base, a.stream))
    requires a.base == b.base && a.stream == b.stream && a.parse == b.parse
    requires i < |a.entries| && i < |b.entries| && Unbatched(a.entries[i]) == Unbatched(b.entries[i])
    ensures SameRecord(a.entries[i], a.catalog.pool, b.entries[i], b.catalog.pool)
  {
    hide Indexed, Lines, LineStart, Starts, Excess, Floor, Kept, Roomy, TargetOf, Tally, Index.Framed;
    var line := Retained(a.base, a.stream)[i];
    OnlyLongCut(a, i);
    OnlyLongCut(b, i);
    assert Describes(a.parse, a.entries[i], a.catalog.pool, line);
    assert Describes(b.parse, b.entries[i], b.catalog.pool, line);
  }

  function Concat(batches: seq<seq<byte>>): seq<byte> {
    if batches == [] then [] else Concat(batches[..|batches| - 1]) + batches[|batches| - 1]
  }

  /** A whole run of appends: the index describes the retained lines of everything read. */
  method Replay(parse: Parser, start: nat, batches: seq<seq<byte>>) returns (index: Index)
    requires forall i | 0 <= i < |batches| :: |batches[i]| <= MAX_BATCH
    ensures fresh(index) && index.Valid()
    ensures index.base == start && index.stream == Concat(batches) && index.parse == parse
  {
    hide Index.Valid;
    index := new Index(parse, start);
    for i := 0 to |batches|
      invariant fresh(index) && index.Valid()
      invariant index.base == start && index.stream == Concat(batches[..i]) && index.parse == parse
    {
      var ok := index.Append(index.nextRead, batches[i]);
      assert batches[..i + 1][..i] == batches[..i];
    }
    assert batches[..|batches|] == batches;
  }
}
