/**
 Reading a log file backwards, from its end through the live window into the part that
 only the file still holds. `Shown` says on lines alone which records a viewer who follows
 the cursor sees, and `MissesNothing` when those are all of them.
 */
module LogHistory {
  import opened Prelude
  import opened LineStream
  import opened LogIndex
  import opened LogScan
  import opened LogPager

  // ---------- The batch before a cursor, cut out of the whole file ----------

  predicate IsWhole(l: Line, start: nat) {
    start == 0 || start < l.start
  }

  ghost predicate AllWhole(ls: seq<Line>, start: nat) {
    forall i | 0 <= i < |ls| :: IsWhole(ls[i], start)
  }

  ghost predicate EndBy(ls: seq<Line>, b: nat) {
    forall i | 0 <= i < |ls| :: ls[i].end <= b
  }

  ghost predicate Past(ls: seq<Line>, b: nat) {
    forall i | 0 <= i < |ls| :: b < ls[i].end
  }

  /** The last lines, as far as a reader who starts at `start` knows them to be whole. */
  function Whole(ls: seq<Line>, start: nat): (r: seq<Line>)
    ensures |r| <= |ls|
  {
    if ls == [] || !IsWhole(ls[|ls| - 1], start) then [] else Whole(ls[..|ls| - 1], start) + [ls[|ls| - 1]]
  }

  ghost predicate IsSuffix(w: seq<Line>, ls: seq<Line>) {
    |w| <= |ls| && w == ls[|ls| - |w|..]
  }

  lemma {:induction false} WholeOnes(ls: seq<Line>, start: nat)
    ensures IsSuffix(Whole(ls, start), ls) && AllWhole(Whole(ls, start), start)
    ensures Whole(ls, start) == [] && ls != [] ==> !IsWhole(ls[|ls| - 1], start)
  {
    hide Whole, IsWhole, AllWhole, IsSuffix;
    if ls == [] {
      NoneIsWhole(ls, start);
    } else {
      var n := |ls| - 1;
      WholeOnes(ls[..n], start);
      assert ls == ls[..n] + [ls[n]];
      WholeSnoc(ls[..n], ls[n], start);
      if IsWhole(ls[n], start) {
        OneMoreWhole(ls[..n], Whole(ls[..n], start), ls[n], start);
      } else {
        NoneIsWhole(ls, start);
      }
    }
  }

  lemma OneMoreWhole(ls: seq<Line>, w: seq<Line>, l: Line, start: nat)
    requires IsSuffix(w, ls) && AllWhole(w, start) && IsWhole(l, start)
    ensures IsSuffix(w + [l], ls + [l]) && AllWhole(w + [l], start)
  {
    hide IsWhole;
    assert (ls + [l])[|ls| - |w|..] == ls[|ls| - |w|..] + [l];
  }

  lemma NoneIsWhole(ls: seq<Line>, start: nat)
    ensures IsSuffix([], ls) && AllWhole([], start) && Whole([], start) == []
  {
  }

  lemma WholeSnoc(ls: seq<Line>, l: Line, start: nat)
    ensures Whole(ls + [l], start) == if IsWhole(l, start) then Whole(ls, start) + [l] else []
  {
    assert (ls + [l])[..|ls|] == ls;
  }

  lemma NoneWhole(base: nat, s: seq<byte>, start: nat)
    requires base + LineStart(s) <= start && 0 < start
    ensures Whole(Lines(base, s), start) == []
  {
    hide Lines, LineStart;
    LinesApart(base, s);
    var ls := Lines(base, s);
    assert ls != [] ==> ls[|ls| - 1].start < ls[|ls| - 1].end <= start;
  }

  lemma {:induction false} LineStartInside(file: seq<byte>, start: nat, b: nat)
    requires start <= b <= |file|
    ensures var k := LineStart(file[..b]);
      LineStart(file[start..b]) == if k > start then k - start else 0
  {
    if start < b {
      assert file[..b][..b - 1] == file[..b - 1];
      assert file[start..b][..b - start - 1] == file[start..b - 1];
      LineStartInside(file, start, b - 1);
    }
  }

  lemma NoLines(base: nat)
    ensures Lines(base, []) == [] && LineStart([]) == 0
  {
  }

  /** Reading from the middle of the file finds the same lines, the first one excepted. */
  lemma {:induction false} LinesInside(file: seq<byte>, start: nat, b: nat)
    requires start <= b <= |file|
    ensures Lines(start, file[start..b]) == Whole(Lines(0, file[..b]), start)
  {
    hide Lines, LineStart, Whole;
    if start == 0 {
      assert file[start..b] == file[..b];
      AllAreWhole(Lines(0, file[..b]));
    } else if b == start {
      assert file[start..b] == [];
      NoLines(start);
      NoneWhole(0, file[..b], start);
    } else {
      LinesInside(file, start, b - 1);
      InsideSnoc(file, start, b - 1);
    }
  }

  lemma {:induction false} AllAreWhole(ls: seq<Line>)
    ensures Whole(ls, 0) == ls
  {
    if ls != [] {
      AllAreWhole(ls[..|ls| - 1]);
    }
  }

  lemma InsideSnoc(file: seq<byte>, start: nat, c: nat)
    requires 0 < start <= c < |file| && Lines(start, file[start..c]) == Whole(Lines(0, file[..c]), start)
    ensures Lines(start, file[start..c + 1]) == Whole(Lines(0, file[..c + 1]), start)
  {
    hide Lines, LineStart, Whole;
    assert file[..c + 1] == file[..c] + [file[c]];
    assert file[start..c + 1] == file[start..c] + [file[c]];
    LinesSnoc(0, file[..c], file[c]);
    LinesSnoc(start, file[start..c], file[c]);
    LineStartInside(file, start, c);
    var k := LineStart(file[..c]);
    WholeSnoc(Lines(0, file[..c]), Line(k, c + 1, file[..c][k..]), start);
    if k <= start {
      NoneWhole(0, file[..c], start);
    } else {
      assert file[..c][k..] == file[start..c][k - start..];
    }
  }

  /** What is read first stays in front. */
  lemma {:induction false} LinesPrefix(file: seq<byte>, b: nat, c: nat) returns (rest: seq<Line>)
    requires b <= c <= |file|
    ensures Lines(0, file[..c]) == Lines(0, file[..b]) + rest && Past(rest, b)
  {
    hide Lines, LineStart;
    rest := [];
    if b < c {
      rest := LinesPrefix(file, b, c - 1);
      assert file[..c] == file[..c - 1] + [file[c - 1]];
      LinesSnoc(0, file[..c - 1], file[c - 1]);
      rest := Lines(0, file[..c])[|Lines(0, file[..b])|..];
    }
  }

  // ---------- Following the cursor back ----------

  /** What a viewer sees who follows the cursor back from `b`: the batch before `b` shows the
      lines it holds whole; if it holds none, the cursor moves to the start of the batch. */
  function Shown(ls: seq<Line>, b: nat): (r: seq<Line>)
    ensures |r| <= |ls|
    decreases |ls|, b
  {
    if ls == [] then []
    else
      var n := |ls| - 1;
      if b < ls[n].end then Shown(ls[..n], b)
      else if IsWhole(ls[n], Back(b)) then Shown(ls[..n], ls[n].start) + [ls[n]]
      else Shown(ls, Back(b))
  }

  lemma {:induction false} ShownIgnores(ls: seq<Line>, more: seq<Line>, b: nat)
    requires Past(more, b)
    ensures Shown(ls + more, b) == Shown(ls, b)
  {
    if more == [] {
      assert ls + more == ls;
    } else {
      var n := |more| - 1;
      assert (ls + more)[..|ls + more| - 1] == ls + more[..n];
      ShownIgnores(ls, more[..n], b);
    }
  }

  /** A run of lines that the batch before `b` holds whole is shown, and the walk goes on
      from the first of them. */
  lemma {:induction false} ShownRun(before: seq<Line>, run: seq<Line>, b: nat)
    requires run != [] && Apart(before + run, 0, b)
    requires AllWhole(run, Back(b))
    ensures Shown(before + run, b) == Shown(before, run[0].start) + run
  {
    var n := |run| - 1;
    var all := before + run;
    assert all[|all| - 1] == run[n] && all[..|all| - 1] == before + run[..n];
    if n > 0 {
      ApartInit(all, b);
      ShownRun(before, run[..n], run[n].start);
      assert run == run[..n] + [run[n]];
    } else {
      assert before + run[..n] == before;
      assert run == [run[n]];
    }
  }

  lemma ApartInit(ls: seq<Line>, b: nat)
    requires Apart(ls, 0, b) && ls != []
    ensures Apart(ls[..|ls| - 1], 0, ls[|ls| - 1].start)
  {
  }

  lemma ShownAtZero(ls: seq<Line>, bound: nat)
    requires Apart(ls, 0, bound)
    ensures Shown(ls, 0) == []
  {
    ShownIgnores([], ls, 0);
    assert [] + ls == ls;
  }

  // ---------- When nothing is missed ----------

  /** Steps of one batch each, from `next` down, land on the line. */
  predicate Straddled(l: Line, next: nat) {
    && next - l.start >= MAX_BATCH
    && (next - l.start) % MAX_BATCH < l.end - l.start
    && !(l.start == 0 && next % MAX_BATCH == 0)
  }

  function NextOf(ls: seq<Line>, b: nat, i: nat): nat
    requires i < |ls|
  {
    if i + 1 < |ls| then ls[i + 1].start else b
  }

  ghost predicate Short(ls: seq<Line>) {
    forall i | 0 <= i < |ls| :: ls[i].end - ls[i].start <= MAX_LINE + 1
  }

  /** The last line is shown unless it is straddled; then the walk goes on inside it. */
  lemma {:induction false} ShownLast(ls: seq<Line>, b: nat) returns (c: nat)
    requires ls != [] && ls[|ls| - 1].start < ls[|ls| - 1].end <= b && Short(ls)
    ensures var n := |ls| - 1;
      Shown(ls, b) == if Straddled(ls[n], b) then Shown(ls[..n], c) else Shown(ls[..n], ls[n].start) + [ls[n]]
    decreases b
  {
    hide Straddled;
    var l, start := ls[|ls| - 1], Back(b);
    StraddledStep(l, b);
    c := start;
    if !IsWhole(l, start) && l.end <= start {
      c := ShownLast(ls, start);
    }
  }

  /** Being straddled, one batch at a time. */
  lemma StraddledStep(l: Line, b: nat)
    requires l.start < l.end <= b && l.end - l.start <= MAX_LINE + 1
    ensures Straddled(l, b) <==> !IsWhole(l, Back(b)) && (Back(b) < l.end || Straddled(l, Back(b)))
  {
    if b >= MAX_BATCH {
      var d := b - l.start;
      assert d >= MAX_BATCH ==> d % MAX_BATCH == (d - MAX_BATCH) % MAX_BATCH;
      assert b % MAX_BATCH == (b - MAX_BATCH) % MAX_BATCH;
    }
  }

  /** No line is straddled on the way down from the next one, or from `b`. */
  ghost predicate Clear(ls: seq<Line>, b: nat) {
    forall i | 0 <= i < |ls| :: !Straddled(ls[i], NextOf(ls, b, i))
  }

  lemma ClearLast(ls: seq<Line>, b: nat)
    requires ls != []
    ensures var n := |ls| - 1; Clear(ls, b) <==> Clear(ls[..n], ls[n].start) && !Straddled(ls[n], b)
  {
    hide Straddled;
    var n := |ls| - 1;
    assert forall i | 0 <= i < n :: ls[..n][i] == ls[i] && NextOf(ls[..n], ls[n].start, i) == NextOf(ls, b, i);
    assert NextOf(ls, b, n) == b;
  }

  /** Following the cursor back from `b` shows every line exactly when none is straddled. */
  lemma {:induction false} MissesNothing(ls: seq<Line>, b: nat)
    requires Apart(ls, 0, b) && Short(ls)
    ensures Shown(ls, b) == ls <==> Clear(ls, b)
    decreases |ls|
  {
    if ls != [] {
      hide Shown, Straddled, Clear, Short, Apart;
      var n := |ls| - 1;
      var front, l := ls[..n], ls[n];
      LastIn(ls, b);
      var c := ShownLast(ls, b);
      ClearLast(ls, b);
      MissesNothing(front, l.start);
      SameBeforeLast(Shown(front, l.start), ls);
    } else {
      assert Shown(ls, b) == [];
    }
  }

  lemma SameBeforeLast(a: seq<Line>, ls: seq<Line>)
    requires ls != []
    ensures a + [ls[|ls| - 1]] == ls <==> a == ls[..|ls| - 1]
  {
    var l := ls[|ls| - 1];
    assert (a + [l])[..|a|] == a;
    assert ls == ls[..|ls| - 1] + [l];
  }

  lemma LastIn(ls: seq<Line>, b: nat)
    requires Apart(ls, 0, b) && Short(ls) && ls != []
    ensures var n := |ls| - 1;
      ls[n].start < ls[n].end <= b && Apart(ls[..n], 0, ls[n].start) && Short(ls[..n])
  {
  }

  // ---------- One page of history ----------

  /** A batch that holds whole lines retains its last ones. */
  lemma BatchRetains(base: nat, s: seq<byte>)
    requires |s| <= MAX_BATCH
    ensures var ls, kept := Lines(base, s), Retained(base, s);
      && |kept| <= |ls| && kept == ls[|ls| - |kept|..]
      && (ls != [] ==> kept != [])
  {
    hide Lines, Excess, LineStart;
    LinesOrdered(base, s);
    var ls := Lines(base, s);
    if ls != [] {
      ExcessMeaning(Starts(ls), Floor(base + |s|), |ls| - 1);
    }
  }

  /** The records of the batch before `b`, beside the lines of the whole file. */
  lemma BatchInFile(file: seq<byte>, b: nat) returns (before: seq<Line>, kept: seq<Line>, after: seq<Line>)
    requires b <= |file|
    ensures kept == Retained(Back(b), file[Back(b)..b]) && Lines(0, file) == before + kept + after
    ensures Apart(before + kept, 0, b) && AllWhole(kept, Back(b)) && Past(after, b)
    ensures kept == [] && before != [] ==> !IsWhole(before[|before| - 1], Back(b))
  {
    hide Lines, LineStart, Retained, Whole, IsWhole, Apart, AllWhole, Past;
    var start := Back(b);
    var ls, batch := Lines(0, file[..b]), Lines(start, file[start..b]);
    kept := Retained(start, file[start..b]);
    assert file[..|file|] == file;
    after := LinesPrefix(file, b, |file|);
    LinesApart(0, file[..b]);
    ApartWidens(ls, 0, LineStart(file[..b]), b);
    LinesInside(file, start, b);
    WholeOnes(ls, start);
    BatchRetains(start, file[start..b]);
    before := ls[..|ls| - |kept|];
    LastOnes(ls, batch, kept, start);
  }

  lemma LastOnes(ls: seq<Line>, batch: seq<Line>, kept: seq<Line>, start: nat)
    requires |kept| <= |batch| <= |ls| && batch == ls[|ls| - |batch|..] && kept == batch[|batch| - |kept|..]
    requires AllWhole(batch, start)
    ensures ls == ls[..|ls| - |kept|] + kept && AllWhole(kept, start)
  {
    hide IsWhole;
    assert kept == ls[|ls| - |kept|..];
  }

  /** One page of history shows the next lines that a viewer following the cursor is to see. */
  lemma HistoryStep(file: seq<byte>, b: nat, kept: seq<Line>, m: nat, cursor: nat)
    requires 0 < b <= |file| && kept == Retained(Back(b), file[Back(b)..b])
    requires if kept == [] then m == 0 && cursor == Back(b) else m < |kept| && cursor == kept[m].start
    ensures cursor < b && Shown(Lines(0, file), b) == Shown(Lines(0, file), cursor) + kept[m..]
  {
    hide Lines, Retained, Shown, IsWhole, Apart, AllWhole, Past;
    var before, run, after := BatchInFile(file, b);
    if kept == [] {
      assert before + kept == before;
      ApartEnds(before, b);
      NothingWhole(before, after, b);
      assert before + kept + after == before + after;
      assert Shown(Lines(0, file), cursor) + [] == Shown(Lines(0, file), cursor);
    } else {
      ShownPart(before, kept, after, b, m);
    }
  }

  lemma ApartEnds(ls: seq<Line>, b: nat)
    requires Apart(ls, 0, b)
    ensures EndBy(ls, b)
  {
  }

  lemma NothingWhole(before: seq<Line>, after: seq<Line>, b: nat)
    requires 0 < b && EndBy(before, b) && Past(after, b)
    requires before != [] ==> !IsWhole(before[|before| - 1], Back(b))
    ensures Shown(before + after, b) == Shown(before + after, Back(b))
  {
    ShownIgnores(before, after, b);
    ShownIgnores(before, after, Back(b));
  }

  lemma ShownPart(before: seq<Line>, kept: seq<Line>, after: seq<Line>, b: nat, m: nat)
    requires m < |kept| && Apart(before + kept, 0, b) && AllWhole(kept, Back(b)) && Past(after, b)
    ensures var all := before + kept + after;
      kept[m].start < b && Shown(all, b) == Shown(all, kept[m].start) + kept[m..]
  {
    hide Shown, IsWhole;
    var all, cursor := before + kept + after, kept[m].start;
    var front, run := before + kept[..m], kept[m..];
    assert before + kept == front + run;
    assert all == (before + kept) + after == front + (run + after);
    ShownIgnores(before + kept, after, b);
    ShownRun(front, run, b);
    assert forall i | 0 <= i < |run| :: run[i] == (before + kept)[|before| + m + i];
    ShownIgnores(front, run + after, cursor);
  }

  // ---------- Rows of lines ----------

  /** What a viewer asks for, apart from where to start. */
  datatype Asked = Asked(env: Env, generation: Text, needle: Option<Text>, file: seq<byte>, filter: Filter)

  function LensOf(a: Asked, pool: seq<Text>): Lens {
    Lens(a.env, a.generation, a.needle, a.file, pool)
  }

  /** The entry of a line with a pool of its own. */
  function EntryAlone(parse: Parser, l: Line): Entry {
    EntryOf(l.start, l.end, parse(l.content), 0, |TargetOf(parse, l.content)| > MAX_TARGET)
  }

  /** The row of a line, if it matches: a function of the line and of what is asked. */
  function RowOfLine(a: Asked, l: Line): (rows: seq<LogRow>)
    requires l.start <= l.end <= |a.file|
  {
    var e, pool := EntryAlone(a.env.parse, l), [ShortTarget(a.env.parse, l)];
    if Matches(a.filter, e, pool) && TextMatches(a.env, a.needle, a.file, e, pool)
    then [RowOf(a.env, a.generation, a.file, e, pool)] else []
  }

  predicate InFile(ls: seq<Line>, file: seq<byte>) {
    forall i | 0 <= i < |ls| :: ls[i].start <= ls[i].end <= |file|
  }

  function RowsOfLines(a: Asked, ls: seq<Line>): (rows: seq<LogRow>)
    requires InFile(ls, a.file)
  {
    if ls == [] then [] else RowsOfLines(a, ls[..|ls| - 1]) + RowOfLine(a, ls[|ls| - 1])
  }

  lemma {:induction false} RowsOfLinesConcat(a: Asked, xs: seq<Line>, ys: seq<Line>)
    requires InFile(xs, a.file) && InFile(ys, a.file)
    ensures InFile(xs + ys, a.file) && RowsOfLines(a, xs + ys) == RowsOfLines(a, xs) + RowsOfLines(a, ys)
  {
    hide RowOfLine;
    if ys == [] {
      assert xs + ys == xs;
    } else {
      var n := |ys| - 1;
      assert (xs + ys)[..|xs + ys| - 1] == xs + ys[..n];
      RowsOfLinesConcat(a, xs, ys[..n]);
    }
  }

  /** An entry whose target is cut only if too long matches and shows what its line does. */
  lemma SameAsAlone(a: Asked, e: Entry, pool: seq<Text>, l: Line)
    requires Describes(a.env.parse, e, pool, l) && l.start <= l.end <= |a.file|
    requires e.truncated ==> |TargetOf(a.env.parse, l.content)| > MAX_TARGET
    ensures RowOfLine(a, l) == if Matches(a.filter, e, pool) && TextMatches(a.env, a.needle, a.file, e, pool)
                               then [RowOf(a.env, a.generation, a.file, e, pool)] else []
  {
    hide CutAt, Digits, TargetOf;
    assert pool[e.target] == ShortTarget(a.env.parse, l);
  }

  /** The rows of the matching entries. */
  ghost function HitRows(a: Asked, es: seq<Entry>, pool: seq<Text>): seq<LogRow>
    requires Readable(es, pool, a.file)
  {
    HitsReadable(a.filter, es, pool, a.file);
    Rows(LensOf(a, pool), Hits(a.filter, es, pool))
  }

  lemma HitRowsSnoc(a: Asked, es: seq<Entry>, e: Entry, pool: seq<Text>)
    requires Readable(es, pool, a.file) && ReadableEntry(e, pool, a.file)
    ensures Readable(es + [e], pool, a.file)
    ensures HitRows(a, es + [e], pool) == HitRows(a, es, pool)
      + if Matches(a.filter, e, pool) && TextMatches(a.env, a.needle, a.file, e, pool)
        then [RowOf(a.env, a.generation, a.file, e, pool)] else []
  {
    hide Matches, TextMatches, RowOf, ReadableEntry, Rows;
    assert (es + [e])[..|es|] == es;
    HitsReadable(a.filter, es, pool, a.file);
    var hits := Hits(a.filter, es, pool);
    if Matches(a.filter, e, pool) {
      RowsOfOne(LensOf(a, pool), e);
      RowsConcat(LensOf(a, pool), hits, [e]);
    } else {
      assert hits + [] == hits;
    }
  }

  /** Entries that describe some lines and are cut only where too long show their rows. */
  lemma {:induction false} RowsAgree(a: Asked, es: seq<Entry>, pool: seq<Text>, ls: seq<Line>)
    requires DescribeAll(a.env.parse, es, pool, ls) && Uncut(a.env.parse, es, ls)
    requires Readable(es, pool, a.file) && InFile(ls, a.file)
    ensures HitRows(a, es, pool) == RowsOfLines(a, ls)
  {
    hide DescribeAll, Uncut, Readable, InFile, Describes, ReadableEntry, Matches, TextMatches;
    hide RowOf, RowOfLine, HitRows, RowsOfLines, EntryAlone, TargetOf;
    if es == [] {
      NoRowsOfLines(a, pool, ls);
    } else {
      var n := |es| - 1;
      FirstOnes(a, es, pool, ls, n);
      LastOne(a, es, pool, ls);
      RowsAgree(a, es[..n], pool, ls[..n]);
      assert es == es[..n] + [es[n]];
      HitRowsSnoc(a, es[..n], es[n], pool);
      SameAsAlone(a, es[n], pool, ls[n]);
      RowsOfLinesLast(a, ls);
    }
  }

  lemma NoRowsOfLines(a: Asked, pool: seq<Text>, ls: seq<Line>)
    requires DescribeAll(a.env.parse, [], pool, ls)
    ensures ls == [] && Readable([], pool, a.file) && HitRows(a, [], pool) == [] && RowsOfLines(a, []) == []
  {
  }

  lemma RowsOfLinesLast(a: Asked, ls: seq<Line>)
    requires InFile(ls, a.file) && ls != []
    ensures var n := |ls| - 1;
      && InFile(ls[..n], a.file) && ls[n].start <= ls[n].end <= |a.file|
      && RowsOfLines(a, ls) == RowsOfLines(a, ls[..n]) + RowOfLine(a, ls[n])
  {
    hide RowOfLine;
  }

  lemma FirstOnes(a: Asked, es: seq<Entry>, pool: seq<Text>, ls: seq<Line>, n: nat)
    requires DescribeAll(a.env.parse, es, pool, ls) && Uncut(a.env.parse, es, ls)
    requires Readable(es, pool, a.file) && InFile(ls, a.file) && n <= |es|
    ensures n <= |ls| && DescribeAll(a.env.parse, es[..n], pool, ls[..n]) && Uncut(a.env.parse, es[..n], ls[..n])
    ensures Readable(es[..n], pool, a.file) && InFile(ls[..n], a.file) && InFile(ls[n..], a.file)
  {
    hide Describes, ReadableEntry, TargetOf;
  }

  lemma LastOne(a: Asked, es: seq<Entry>, pool: seq<Text>, ls: seq<Line>)
    requires DescribeAll(a.env.parse, es, pool, ls) && Uncut(a.env.parse, es, ls) && es != []
    requires Readable(es, pool, a.file) && InFile(ls, a.file)
    ensures |ls| == |es| && var n := |es| - 1;
      && Describes(a.env.parse, es[n], pool, ls[n]) && ReadableEntry(es[n], pool, a.file)
      && (es[n].truncated ==> |TargetOf(a.env.parse, ls[n].content)| > MAX_TARGET)
      && ls[n].start <= ls[n].end <= |a.file|
  {
    hide Describes, ReadableEntry, TargetOf;
  }

  // ---------- The walk ----------

  lemma {:induction false} ShownInFile(ls: seq<Line>, b: nat, file: seq<byte>)
    requires InFile(ls, file)
    ensures InFile(Shown(ls, b), file)
    decreases |ls|, b
  {
    if ls != [] {
      var n := |ls| - 1;
      if b < ls[n].end {
        ShownInFile(ls[..n], b, file);
      } else if IsWhole(ls[n], Back(b)) {
        ShownInFile(ls[..n], ls[n].start, file);
      } else {
        ShownInFile(ls, Back(b), file);
      }
    }
  }

  lemma LinesInFile(base: nat, s: seq<byte>, file: seq<byte>)
    requires base + |s| <= |file|
    ensures InFile(Lines(base, s), file) && InFile(Retained(base, s), file)
  {
    hide Lines, LineStart, Excess;
    LinesOrdered(base, s);
  }

  /** The rows that following the cursor back from `b` through the file is to show. */
  ghost function OlderRows(a: Asked, b: nat): seq<LogRow> {
    LinesInFile(0, a.file, a.file);
    ShownInFile(Lines(0, a.file), b, a.file);
    RowsOfLines(a, Shown(Lines(0, a.file), b))
  }

  /** Where a page of history stopped among the records of its batch. */
  lemma StoppedAt(w: View, parse: Parser, file: seq<byte>, b: nat, oldest: nat, cursor: nat, more: bool)
    requires b <= |file| && IsBatch(w, parse, file, b) && BackwardOk(w, b, oldest, cursor, more)
    requires oldest == if w.entries == [] then Back(b) else w.entries[0].start
    ensures var kept, m := Retained(Back(b), file[Back(b)..b]), Split(w.entries, cursor);
      && |kept| == |w.entries|
      && (if kept == [] then m == 0 && cursor == Back(b) else m < |kept| && cursor == kept[m].start)
      && Beyond(w.entries, b, true) == w.entries && Beyond(w.entries, cursor, true) == w.entries[..m]
  {
    hide Retained, LineStart, Split, Uncut, DescribeAll, Ordered, EntryStarts, BackwardOk;
    var start := Back(b);
    var kept, es := Retained(start, file[start..b]), w.entries;
    RetainedAscend(start, file[start..b]);
    AscendingIn(kept, start + LineStart(file[start..b]), b);
    DescribedAreOrdered(parse, es, w.catalog.pool, kept, b);
    DescribedStarts(parse, es, w.catalog.pool, kept);
    assert |EntryStarts(es)| == |es| && |Starts(kept)| == |kept|;
    AllBefore(es, b);
    StoppedInside(w, b, oldest, cursor, more);
  }

  lemma AscendingIn(ls: seq<Line>, bound: nat, b: nat)
    requires Ascending(ls, bound) && bound <= b
    ensures Ascending(ls, b)
  {
  }

  lemma AllBefore(es: seq<Entry>, b: nat)
    requires Ordered(es) && forall i | 0 <= i < |es| :: es[i].end <= b
    ensures Beyond(es, b, true) == es
  {
    SplitMeaning(es, b);
    assert es != [] ==> es[|es| - 1].start < es[|es| - 1].end;
  }

  lemma StoppedInside(w: View, b: nat, oldest: nat, cursor: nat, more: bool)
    requires Ordered(w.entries) && BackwardOk(w, b, oldest, cursor, more)
    requires w.entries != [] ==> oldest == w.entries[0].start
    ensures var m := Split(w.entries, cursor);
      if w.entries == [] then m == 0 && cursor == oldest
      else m < |w.entries| && cursor == EntryStarts(w.entries)[m]
  {
    var es := w.entries;
    if Beyond(es, cursor, true) != [] {
      var p :| 0 <= p < |es| && EntryStarts(es)[p] == cursor;
      SplitAt(es, p);
    } else if es != [] {
      SplitAt(es, 0);
    }
  }

  /** A page of history: its rows, and what is left to show after it. */
  lemma HistoryPage(a: Asked, w: View, b: nat, oldest: nat, cursor: nat, more: bool, rows: seq<LogRow>)
    requires 0 < b <= |a.file| && IsBatch(w, a.env.parse, a.file, b) && BackwardOk(w, b, oldest, cursor, more)
    requires oldest == if w.entries == [] then Back(b) else w.entries[0].start
    requires Readable(w.entries, w.catalog.pool, a.file)
    requires ServedOk(LensOf(a, w.catalog.pool), w, a.filter, b, true, rows, cursor, more)
    ensures cursor < b && OlderRows(a, b) == OlderRows(a, cursor) + rows
  {
    hide BackwardOk, Readable, Retained, Lines, Shown, RowsOfLines, InFile, Split, Rows, Hits, Beyond;
    var kept, m := Retained(Back(b), a.file[Back(b)..b]), Split(w.entries, cursor);
    StoppedAt(w, a.env.parse, a.file, b, oldest, cursor, more);
    HistoryStep(a.file, b, kept, m, cursor);
    LinesInFile(Back(b), a.file[Back(b)..b], a.file);
    BatchRows(a, w, kept, m);
    LinesInFile(0, a.file, a.file);
    ShownInFile(Lines(0, a.file), cursor, a.file);
    RowsOfLinesConcat(a, Shown(Lines(0, a.file), cursor), kept[m..]);
    var front, all := HitRows(a, w.entries[..m], w.catalog.pool), HitRows(a, w.entries, w.catalog.pool);
    assert all == front + rows;
    assert rows == all[|front|..] == RowsOfLines(a, kept[m..]);
  }

  /** The rows of a batch, apart at the m-th record. */
  lemma BatchRows(a: Asked, w: View, kept: seq<Line>, m: nat)
    requires DescribeAll(a.env.parse, w.entries, w.catalog.pool, kept) && Uncut(a.env.parse, w.entries, kept)
    requires Readable(w.entries, w.catalog.pool, a.file) && InFile(kept, a.file) && m <= |w.entries|
    ensures m <= |kept| && Readable(w.entries[..m], w.catalog.pool, a.file) && InFile(kept[m..], a.file)
    ensures HitRows(a, w.entries, w.catalog.pool)
         == HitRows(a, w.entries[..m], w.catalog.pool) + RowsOfLines(a, kept[m..])
  {
    hide DescribeAll, Uncut, Readable, InFile, HitRows, RowsOfLines;
    FirstOnes(a, w.entries, w.catalog.pool, kept, m);
    RowsAgree(a, w.entries, w.catalog.pool, kept);
    RowsAgree(a, w.entries[..m], w.catalog.pool, kept[..m]);
    RowsOfLinesConcat(a, kept[..m], kept[m..]);
    assert kept == kept[..m] + kept[m..];
  }

  /** What is left to show when the cursor stands at `at`. */
  ghost function Rest(a: Asked, index: Index, at: nat): seq<LogRow>
    requires Readable(index.entries, index.catalog.pool, a.file)
    reads index
  {
    if at <= index.Start() then OlderRows(a, at)
    else OlderRows(a, index.Start())
         + RowsBeyond(LensOf(a, index.catalog.pool), a.filter, index.entries, at, true)
  }

  /** A page of the live window. */
  lemma LivePage(a: Asked, index: Index, b: nat, cursor: nat, more: bool, rows: seq<LogRow>)
    requires Readable(index.entries, index.catalog.pool, a.file) && index.Start() <= b
    requires ServedOk(LensOf(a, index.catalog.pool), ViewOf(index), a.filter, b, true, rows, cursor, more)
    requires BackwardOk(ViewOf(index), b, index.Start(), cursor, more)
    requires Searchable(ViewOf(index))
    ensures cursor <= b && (index.Start() < b ==> cursor < b)
    ensures OlderRows(a, index.Start())
            + RowsBeyond(LensOf(a, index.catalog.pool), a.filter, index.entries, b, true)
            == Rest(a, index, cursor) + rows
  {
    hide OlderRows, Readable, Rows, Hits, Indexed, Split;
    SplitMeaning(index.entries, cursor);
    if Beyond(index.entries, cursor, true) == [] {
      NoneBeyond(LensOf(a, index.catalog.pool), a.filter, index.entries, cursor);
      assert [] + rows == rows;
    } else {
      assert index.entries[0].start < cursor;
    }
  }

  lemma NoneBeyond(l: Lens, f: Filter, es: seq<Entry>, b: nat)
    requires Readable(es, l.pool, l.file) && Beyond(es, b, true) == []
    ensures RowsBeyond(l, f, es, b, true) == []
  {
  }

  lemma AllBeyond(a: Asked, w: View)
    requires Searchable(w) && Readable(w.entries, w.catalog.pool, a.file)
    ensures RowsBeyond(LensOf(a, w.catalog.pool), a.filter, w.entries, w.committed, true)
         == HitRows(a, w.entries, w.catalog.pool)
  {
    hide Rows, Hits, Indexed, Readable;
    AllBefore(w.entries, w.committed);
  }

  // ---------- The whole file ----------

  /** The live window continues the lines that end where it starts. */
  lemma FileSplit(index: Index, file: seq<byte>)
    requires Covering(index, file) && index.nextRead == |file| && index.Start() <= |file|
    ensures var older, kept := Lines(0, file[..index.Start()]), Retained(index.base, index.stream);
      Lines(0, file) == older + kept && Apart(older, 0, index.Start()) && Past(kept, index.Start())
  {
    hide Lines, LineStart, Retained, Whole, Apart, EndBy, Past, Covering;
    var base, start := index.base, index.Start();
    var all, older, kept := Lines(0, file), Lines(0, file[..start]), Retained(base, index.stream);
    WindowInFile(index, file);
    var front := all[..|all| - |kept|];
    assert file[..|file|] == file && all == front + kept;
    LinesApart(0, file);
    StartsAt(index, file);
    FrontEnds(front, kept, LineStart(file), start);
    var rest := LinesPrefix(file, start, |file|);
    LinesApart(0, file[..start]);
    ApartWidens(older, 0, LineStart(file[..start]), start);
    ApartEnds(older, start);
    SplitOnce(older, rest, front, kept, start);
  }

  lemma WindowInFile(index: Index, file: seq<byte>)
    requires Covering(index, file) && index.nextRead == |file|
    ensures IsSuffix(Retained(index.base, index.stream), Lines(0, file))
  {
    hide Index.Valid, Retained;
    ReadToEnd(index, file);
    assert file[..|file|] == file;
    RetainedInFile(file, index.base, |file|);
  }

  lemma ReadToEnd(index: Index, file: seq<byte>)
    requires Covering(index, file) && index.nextRead == |file|
    ensures index.base <= |file| && index.stream == file[index.base..|file|]
  {
    hide Indexed, LineStart, Lines, Retained, DescribeAll, Kept, Tally, Excess, Starts, Floor;
  }

  /** What a reader from `base` retains are the last lines of the file. */
  lemma RetainedInFile(file: seq<byte>, base: nat, b: nat)
    requires base <= b <= |file|
    ensures IsSuffix(Retained(base, file[base..b]), Lines(0, file[..b]))
  {
    hide Lines, Retained, Whole, AllWhole, IsWhole, IsSuffix;
    var all, seen, kept := Lines(0, file[..b]), Lines(base, file[base..b]), Retained(base, file[base..b]);
    LinesInside(file, base, b);
    WholeOnes(all, base);
    RetainedLast(base, file[base..b]);
    SuffixOfSuffix(all, seen, kept);
  }

  lemma RetainedLast(base: nat, s: seq<byte>)
    ensures IsSuffix(Retained(base, s), Lines(base, s))
  {
    hide Lines, Excess;
  }

  lemma SuffixOfSuffix(all: seq<Line>, seen: seq<Line>, kept: seq<Line>)
    requires IsSuffix(seen, all) && IsSuffix(kept, seen)
    ensures IsSuffix(kept, all)
  {
  }

  lemma FrontEnds(front: seq<Line>, kept: seq<Line>, bound: nat, b: nat)
    requires Apart(front + kept, 0, bound) && if kept != [] then b == kept[0].start else bound <= b
    ensures EndBy(front, b) && Past(kept, b)
  {
    var all := front + kept;
    assert forall i | 0 <= i < |front| :: front[i] == all[i];
    assert forall i | 0 <= i < |kept| :: kept[i] == all[|front| + i];
  }

  lemma SplitOnce(a: seq<Line>, a': seq<Line>, c: seq<Line>, c': seq<Line>, b: nat)
    requires a + a' == c + c' && EndBy(a, b) && EndBy(c, b) && Past(a', b) && Past(c', b)
    ensures a == c && a' == c'
  {
    hide EndBy, Past;
    var all := a + a';
    NoShorter(a, a', c, c', b);
    NoShorter(c, c', a, a', b);
    assert all[..|a|] == a && all[..|c|] == c && all[|a|..] == a' && all[|c|..] == c';
  }

  lemma NoShorter(a: seq<Line>, a': seq<Line>, c: seq<Line>, c': seq<Line>, b: nat)
    requires a + a' == c + c' && EndBy(c, b)
    ensures |a| < |c| ==> !Past(a', b)
  {
    if |a| < |c| {
      assert a'[0] == (a + a')[|a|] == c[|a|];
    }
  }

  /** The window starts with its first record, or past every line. */
  lemma StartsAt(index: Index, file: seq<byte>)
    requires Covering(index, file) && index.nextRead == |file|
    ensures var kept := Retained(index.base, index.stream);
      if kept != [] then index.Start() == kept[0].start else LineStart(file) <= index.Start()
  {
    hide LineStart, Retained, Indexed, Kept, Tally;
    var kept := Retained(index.base, index.stream);
    if kept != [] {
      assert Describes(index.parse, index.entries[0], index.catalog.pool, kept[0]);
    } else {
      assert file[..|file|] == file;
      LineStartInside(file, index.base, |file|);
    }
  }

  lemma LinesShort(base: nat, s: seq<byte>)
    ensures Short(Lines(base, s))
  {
    hide Lines;
    var ls := Lines(base, s);
    forall i | 0 <= i < |ls| ensures ls[i].end - ls[i].start <= MAX_LINE + 1 {
      LinesExact(base, s, ls[i]);
    }
  }

  /** A viewer who follows the cursor back past the live window sees every record of the
      file exactly when no record before the window is straddled. */
  lemma SeesEveryRecord(index: Index, file: seq<byte>)
    requires Covering(index, file) && index.nextRead == |file| && index.Start() <= |file|
    ensures Shown(Lines(0, file), index.Start()) + Retained(index.base, index.stream) == Lines(0, file)
       <==> Clear(Lines(0, file[..index.Start()]), index.Start())
  {
    hide Lines, Retained, Shown, Clear, Short, Covering;
    var b := index.Start();
    var older, kept := Lines(0, file[..b]), Retained(index.base, index.stream);
    FileSplit(index, file);
    LinesShort(0, file[..b]);
    ShownIgnores(older, kept, b);
    MissesNothing(older, b);
    assert (Shown(older, b) + kept == older + kept) <==> Shown(older, b) == older by {
      assert |Shown(older, b)| <= |older|;
      assert (older + kept)[..|older|] == older;
      assert (Shown(older, b) + kept)[..|Shown(older, b)|] == Shown(older, b);
    }
  }

  /** Without overlong lines the lines follow one another. */
  lemma {:induction false} Adjacent(s: seq<byte>)
    requires Overruns(0, s) == 0
    ensures |s| - LineStart(s) <= MAX_LINE
    ensures var ls := Lines(0, s); forall i | 0 <= i < |ls| :: NextOf(ls, LineStart(s), i) == ls[i].end
  {
    hide Lines, LineStart;
    if s == [] {
      NoLines(0);
    } else {
      var n := |s| - 1;
      var p, b := s[..n], s[n];
      Adjacent(p);
      assert s == p + [b];
      LinesSnoc(0, p, b);
    }
  }

  /** Then none is straddled. */
  lemma NoOverrunsIsClear(file: seq<byte>, b: nat)
    requires b <= |file| && Overruns(0, file[..b]) == 0
    ensures Clear(Lines(0, file[..b]), b)
  {
    hide Lines, LineStart;
    var ls := Lines(0, file[..b]);
    Adjacent(file[..b]);
    LinesShort(0, file[..b]);
  }

  /** The rows of every record of the file. */
  ghost function FileRows(a: Asked): seq<LogRow> {
    LinesInFile(0, a.file, a.file);
    RowsOfLines(a, Lines(0, a.file))
  }

  /** No record before the live window is straddled, and the window has room for its targets. */
  ghost predicate ReachesAll(index: Index, file: seq<byte>)
    reads index
  {
    && index.Start() <= |file| && Clear(Lines(0, file[..index.Start()]), index.Start())
    && Roomy(index.parse, Lines(index.base, index.stream))
  }

  /** Then the rows shown are those of every record. */
  lemma WalkIsComplete(a: Asked, index: Index)
    requires Covering(index, a.file) && index.nextRead == |a.file| && index.parse == a.env.parse
    requires Readable(index.entries, index.catalog.pool, a.file) && ReachesAll(index, a.file)
    ensures OlderRows(a, index.Start()) + HitRows(a, index.entries, index.catalog.pool) == FileRows(a)
  {
    hide Lines, Retained, Shown, Clear, Readable, InFile, RowsOfLines, HitRows, Covering;
    var kept := Retained(index.base, index.stream);
    SeesEveryRecord(index, a.file);
    WindowRows(a, index);
    LinesInFile(0, a.file, a.file);
    ShownInFile(Lines(0, a.file), index.Start(), a.file);
    RowsOfLinesConcat(a, Shown(Lines(0, a.file), index.Start()), kept);
  }

  lemma WindowRows(a: Asked, index: Index)
    requires Covering(index, a.file) && index.parse == a.env.parse
    requires Readable(index.entries, index.catalog.pool, a.file)
    requires Roomy(a.env.parse, Lines(index.base, index.stream))
    ensures var kept := Retained(index.base, index.stream);
      InFile(kept, a.file) && HitRows(a, index.entries, index.catalog.pool) == RowsOfLines(a, kept)
  {
    hide Lines, Starts, Excess, LineStart, Indexed, DescribeAll, Uncut, Roomy, Worded, Tally, Readable, InFile;
    hide HitRows, RowsOfLines;
    LinesInFile(index.base, index.stream, a.file);
    RowsAgree(a, index.entries, index.catalog.pool, Retained(index.base, index.stream));
  }

  // ---------- A record that no request shows ----------

  function Filler(n: nat): seq<byte> {
    seq(n, i => 65)
  }

  /** Bytes without a newline complete nothing. */
  lemma {:induction false} FillerAddsNone(s: seq<byte>, n: nat)
    ensures Lines(0, s + Filler(n)) == Lines(0, s) && LineStart(s + Filler(n)) == LineStart(s)
  {
    hide Lines, LineStart;
    if n == 0 {
      assert s + Filler(0) == s;
    } else {
      FillerAddsNone(s, n - 1);
      assert s + Filler(n) == (s + Filler(n - 1)) + [65];
      LinesSnoc(0, s + Filler(n - 1), 65);
    }
  }

  lemma FirstRecord()
    ensures Lines(0, [65, NEWLINE]) == [Line(0, 2, [65])] && LineStart([65, NEWLINE]) == 2
  {
    hide Lines, LineStart;
    NoLines(0);
    assert [] + [65] == [65] && [65] + [NEWLINE] == [65, NEWLINE] && [65][0..] == [65];
    LinesSnoc(0, [], 65);
    LinesSnoc(0, [65], NEWLINE);
  }

  /** `A`, a line too long for the index, and then an unfinished line that fills the window. */
  function Sample(): (file: seq<byte>)
    ensures |file| == MAX_BATCH + 1 + MAX_WINDOW
  {
    [65, NEWLINE] + Filler(MAX_BATCH - 2) + [NEWLINE] + Filler(MAX_WINDOW)
  }

  lemma SampleLines()
    ensures Lines(0, Sample()) == [Line(0, 2, [65])] && LineStart(Sample()) == MAX_BATCH + 1
  {
    hide Lines, LineStart, Filler;
    var s := [65, NEWLINE] + Filler(MAX_BATCH - 2);
    FirstRecord();
    FillerAddsNone([65, NEWLINE], MAX_BATCH - 2);
    assert |Filler(MAX_BATCH - 2)| == MAX_BATCH - 2 by { FillerLength(MAX_BATCH - 2); }
    LinesSnoc(0, s, NEWLINE);
    FillerAddsNone(s + [NEWLINE], MAX_WINDOW);
  }

  lemma FillerLength(n: nat)
    ensures |Filler(n)| == n
  {
  }

  lemma ShownOne()
    ensures Shown([Line(0, 2, [65])], MAX_BATCH + 1) == []
  {
    var ls := [Line(0, 2, [65])];
    assert Back(MAX_BATCH + 1) == 1 && !IsWhole(ls[0], 1);
    assert Shown(ls[..0], 1) == [];
    assert Shown(ls, 1) == [];
  }

  lemma RetainedAboveFloor(base: nat, s: seq<byte>, i: nat)
    requires i < |Retained(base, s)|
    ensures Floor(base + |s|) <= Retained(base, s)[i].start
  {
    hide Lines, LineStart, Excess;
    LinesOrdered(base, s);
    var ls := Lines(base, s);
    var e := Excess(Starts(ls), Floor(base + |s|));
    ExcessMeaning(Starts(ls), Floor(base + |s|), e + i);
  }

  /** Whatever index has read this file, its window starts past the long line, and from there
      one batch reaches back into the first record: neither the window nor any page of history
      shows it. */
  lemma MissedRecord(index: Index)
    requires Covering(index, Sample()) && index.nextRead == |Sample()| && index.base <= Floor(|Sample()|)
    ensures index.Start() == MAX_BATCH + 1 && index.entries == []
    ensures Lines(0, Sample()) == [Line(0, 2, [65])]
    ensures Shown(Lines(0, Sample()), index.Start()) + Retained(index.base, index.stream) == []
  {
    hide Lines, LineStart, Retained, Shown, Sample;
    SampleLines();
    NothingInWindow(index);
    WindowStart(index, Sample());
    ShownOne();
  }

  lemma NothingInWindow(index: Index)
    requires Covering(index, Sample()) && index.nextRead == |Sample()|
    ensures Retained(index.base, index.stream) == []
  {
    hide Lines, Retained, Sample, Index.Valid;
    SampleLines();
    ReadToEnd(index, Sample());
    WindowInFile(index, Sample());
    var kept := Retained(index.base, index.stream);
    if kept != [] {
      assert kept[0] == Line(0, 2, [65]);
      RetainedAboveFloor(index.base, index.stream, 0);
      assert false;
    }
  }

  /** An empty window starts where the last line ends, or where reading began. */
  lemma WindowStart(index: Index, file: seq<byte>)
    requires Covering(index, file) && index.nextRead == |file| && Retained(index.base, index.stream) == []
    ensures index.entries == []
    ensures index.Start() == if LineStart(file) > index.base then LineStart(file) else index.base
  {
    hide LineStart, Lines, Retained, Indexed, Kept, Tally, Excess, Starts, Floor;
    assert file[..|file|] == file;
    LineStartInside(file, index.base, |file|);
  }

  /** So a viewer who asks for everything is shown nothing, though the file has a record. */
  lemma MissedRow(a: Asked, index: Index)
    requires a.file == Sample() && a.needle.None? && a.filter == Filter([], None, None, None)
    requires Covering(index, a.file) && index.nextRead == |a.file| && index.base <= Floor(|a.file|)
    ensures Readable(index.entries, index.catalog.pool, a.file)
    ensures OlderRows(a, index.Start()) + HitRows(a, index.entries, index.catalog.pool) == []
    ensures |FileRows(a)| == 1
  {
    hide Lines, Retained, Shown, Sample, Index.Valid, RowOf;
    MissedRecord(index);
    var l := Line(0, 2, [65]);
    assert [l][..0] == [];
    assert RowOfLine(a, l) != [];
  }

  /** Following the cursor back from the end of the unchanging file shows the matching
      records of the live window and before them those of `Shown`, each exactly once, in
      file order, unless a read fails. */
  method ReadBackward(env: Env, index: Index, generation: Text, name: Text, file: seq<byte>, f: Filter,
                      needle: Option<Text>, limit: nat) returns (rows: seq<LogRow>, failed: bool)
    requires Covering(index, file) && index.nextRead == |file| && index.parse == env.parse && SaneParser(env.parse)
    requires |generation| == 36 && |name| <= 255 && |file| < MAX_OFFSET
    requires index.malformed < MAX_OFFSET && index.truncated < MAX_OFFSET
    ensures Readable(index.entries, index.catalog.pool, file)
    ensures var a := Asked(env, generation, needle, file, f);
      !failed ==> rows == OlderRows(a, index.Start()) + HitRows(a, index.entries, index.catalog.pool)
    ensures Reliable(env) ==> !failed
    ensures !failed && ReachesAll(index, file) ==> rows == FileRows(Asked(env, generation, needle, file, f))
  {
    hide ReachesAll, FileRows;
    hide SaneParser, Readable, Covering, Searchable, ServedOk, BackwardOk, IsBatch, PageLength, HeaderOk;
    hide OlderRows, Rest, HitRows, RowsBeyond, Beyond;
    ghost var a := Asked(env, generation, needle, file, f);
    ViewIsReady(index, file);
    AllBeyond(a, ViewOf(index));
    failed := false;
    var reply, w := ServePage(env, index, generation, name, file, Query(f, needle, Latest, None, limit));
    if reply.Failed? {
      return [], true;
    }
    rows := reply.page.rows;
    var at: nat := reply.page.cursor;
    LivePage(a, index, index.committed, at, reply.page.more, rows);
    while at > 0
      invariant at <= index.committed
      invariant OlderRows(a, index.Start()) + HitRows(a, index.entries, index.catalog.pool) == Rest(a, index, at) + rows
    {
      var q := Query(f, needle, Before, Some(Cursor(generation, Some(at))), limit);
      reply, w := ServePage(env, index, generation, name, file, q);
      if reply.Failed? {
        return rows, true;
      }
      var page := reply.page;
      RestMoves(a, index, w, q, at, page.cursor, page.more, page.rows);
      assert (Rest(a, index, page.cursor) + page.rows) + rows == Rest(a, index, page.cursor) + (page.rows + rows);
      rows, at := page.rows + rows, page.cursor;
    }
    NothingLeft(a, index);
    assert [] + rows == rows;
    if ReachesAll(index, file) {
      WalkIsComplete(a, index);
    }
  }

  lemma RestMoves(a: Asked, index: Index, w: View, q: Query, at: nat, cursor: nat, more: bool, rows: seq<LogRow>)
    requires q.direction == Before && From(q) == Some(at) && 0 < at <= |a.file|
    requires Readable(index.entries, index.catalog.pool, a.file) && Readable(w.entries, w.catalog.pool, a.file)
    requires Searchable(ViewOf(index))
    requires ServedOk(LensOf(a, w.catalog.pool), w, a.filter, at, true, rows, cursor, more)
    requires BackwardOk(w, at, Oldest(index, q, w), cursor, more)
    requires if IsHistory(index, q) then IsBatch(w, a.env.parse, a.file, at) else w == ViewOf(index)
    ensures cursor < at && Rest(a, index, at) == Rest(a, index, cursor) + rows
  {
    hide Readable, Searchable, ServedOk, BackwardOk, IsBatch, OlderRows, RowsBeyond;
    if IsHistory(index, q) {
      HistoryPage(a, w, at, Oldest(index, q, w), cursor, more, rows);
    } else {
      LivePage(a, index, at, cursor, more, rows);
    }
  }

  lemma NothingLeft(a: Asked, index: Index)
    requires Readable(index.entries, index.catalog.pool, a.file)
    ensures Rest(a, index, 0) == []
  {
    hide Readable, Lines, LineStart, Shown;
    LinesApart(0, a.file);
    ShownAtZero(Lines(0, a.file), LineStart(a.file));
  }
}
