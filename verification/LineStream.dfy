/**
 What an index over a log file should contain, stated on the byte stream alone.
 `base` is the file offset of the first byte of `s`; a stream that starts inside a
 file starts inside a record, so its leading fragment is not a line.
 */
module LineStream {
  import opened Prelude

  const NEWLINE: byte := 10
  const MAX_LINE: nat := 262_144
  const MAX_WINDOW: nat := 33_554_432
  const MAX_ENTRIES: nat := 250_000

  datatype Line = Line(start: nat, end: nat, content: seq<byte>)

  /** Offset just past the last newline: where the unfinished line begins. */
  function LineStart(s: seq<byte>): (k: nat)
    ensures k <= |s|
  {
    if s == [] then 0
    else if s[|s| - 1] == NEWLINE then |s|
    else LineStart(s[..|s| - 1])
  }

  /** The line that the last byte of `s` completes, if it completes one to keep. */
  function Completed(base: nat, s: seq<byte>): (ls: seq<Line>)
    requires s != []
  {
    var p := s[..|s| - 1];
    var k := LineStart(p);
    if s[|s| - 1] == NEWLINE && (k > 0 || base == 0) && |p| - k <= MAX_LINE
    then [Line(base + k, base + |s|, p[k..])]
    else []
  }

  /** The complete lines of `s` that fit `MAX_LINE`, in file order. */
  function Lines(base: nat, s: seq<byte>): (ls: seq<Line>)
  {
    if s == [] then [] else Lines(base, s[..|s| - 1]) + Completed(base, s)
  }

  function Starts(ls: seq<Line>): (r: seq<nat>)
    ensures |r| == |ls|
    ensures forall i | 0 <= i < |ls| :: r[i] == ls[i].start
  {
    seq(|ls|, i requires 0 <= i < |ls| => ls[i].start)
  }

  /** How many leading records an eviction gives up. */
  function Excess(starts: seq<nat>, floor: nat): (r: nat)
    ensures r <= |starts|
  {
    if |starts| > MAX_ENTRIES || (starts != [] && starts[0] < floor)
    then 1 + Excess(starts[1..], floor)
    else 0
  }

  function Floor(next: nat): nat {
    if next < MAX_WINDOW then 0 else next - MAX_WINDOW
  }

  /** The lines a correct index holds once it has read `s`. */
  function Retained(base: nat, s: seq<byte>): (ls: seq<Line>)
  {
    var all := Lines(base, s);
    all[Excess(Starts(all), Floor(base + |s|))..]
  }

  /** How many lines, finished or not, have grown past `MAX_LINE`. */
  function Overruns(base: nat, s: seq<byte>): nat {
    if s == [] then 0
    else
      var p := s[..|s| - 1];
      var k := LineStart(p);
      Overruns(base, p) + if s[|s| - 1] != NEWLINE && (k > 0 || base == 0) && |p| - k == MAX_LINE then 1 else 0
  }

  ghost predicate Sorted(starts: seq<nat>) {
    forall i, j | 0 <= i < j < |starts| :: starts[i] < starts[j]
  }

  /** `s[a..b]` is a complete line with its newline, and not a leading fragment. */
  ghost predicate IsLine(base: nat, s: seq<byte>, a: int, b: int) {
    && 0 <= a < b <= |s|
    && s[b - 1] == NEWLINE
    && (forall i | a <= i < b - 1 :: s[i] != NEWLINE)
    && (if a == 0 then base == 0 else s[a - 1] == NEWLINE)
    && b - 1 - a <= MAX_LINE
  }

  lemma {:induction false} LineStartMeaning(s: seq<byte>)
    ensures var k := LineStart(s);
      (k > 0 ==> s[k - 1] == NEWLINE) && forall i | k <= i < |s| :: s[i] != NEWLINE
  {
    if s != [] && s[|s| - 1] != NEWLINE {
      LineStartMeaning(s[..|s| - 1]);
    }
  }

  /** What one more byte does to the line list. */
  lemma LinesSnoc(base: nat, s: seq<byte>, b: byte)
    ensures var k := LineStart(s);
      && LineStart(s + [b]) == (if b == NEWLINE then |s| + 1 else k)
      && (b != NEWLINE ==> (s + [b])[k..] == s[k..] + [b])
      && (s + [b])[|s| + 1..] == []
      && Lines(base, s + [b]) ==
           if b == NEWLINE && (k > 0 || base == 0) && |s| - k <= MAX_LINE
           then Lines(base, s) + [Line(base + k, base + |s| + 1, s[k..])]
           else Lines(base, s)
  {
    assert (s + [b])[..|s|] == s;
  }

  lemma OverrunsSnoc(base: nat, s: seq<byte>, b: byte)
    ensures var overrun := b != NEWLINE && (LineStart(s) > 0 || base == 0) && |s| - LineStart(s) == MAX_LINE;
      Overruns(base, s + [b]) == Overruns(base, s) + if overrun then 1 else 0
  {
    assert (s + [b])[..|s|] == s;
  }

  /** `s[a..b]` belongs to one line that is not a leading fragment. */
  ghost predicate InOneLine(base: nat, s: seq<byte>, a: int, b: int) {
    && 0 <= a <= b <= |s|
    && (forall i | a <= i < b :: s[i] != NEWLINE)
    && (if a == 0 then base == 0 else s[a - 1] == NEWLINE)
  }

  lemma {:induction false} OverrunSeen(base: nat, s: seq<byte>) returns (a: nat, b: nat)
    requires Overruns(base, s) > 0
    ensures InOneLine(base, s, a, b) && b - a > MAX_LINE
  {
    hide LineStart;
    var p := s[..|s| - 1];
    if Overruns(base, p) > 0 {
      a, b := OverrunSeen(base, p);
    } else {
      LineStartAt(s, |p|);
      a, b := LineStart(p), |s|;
    }
  }

  lemma {:induction false} OverrunFound(base: nat, s: seq<byte>, a: int, b: int)
    requires InOneLine(base, s, a, b) && b - a > MAX_LINE
    ensures Overruns(base, s) > 0
  {
    hide LineStart;
    var p := s[..|s| - 1];
    if b <= |p| {
      OverrunFound(base, p, a, b);
    } else {
      LastLine(base, s, a);
      if |s| - a > MAX_LINE + 1 {
        OverrunFound(base, p, a, |p|);
      }
    }
  }

  lemma OverrunMeaning(base: nat, s: seq<byte>)
    ensures Overruns(base, s) > 0 <==> exists a, b :: InOneLine(base, s, a, b) && b - a > MAX_LINE
  {
    hide Overruns, InOneLine;
    if Overruns(base, s) > 0 {
      var a, b := OverrunSeen(base, s);
    }
    forall a, b | InOneLine(base, s, a, b) && b - a > MAX_LINE ensures Overruns(base, s) > 0 {
      OverrunFound(base, s, a, b);
    }
  }

  /** A line that is still open starts where the unfinished line begins. */
  lemma LastLine(base: nat, s: seq<byte>, a: int)
    requires s != [] && InOneLine(base, s, a, |s|) && a < |s|
    ensures a == LineStart(s[..|s| - 1]) && s[|s| - 1] != NEWLINE
  {
    var p := s[..|s| - 1];
    var k := LineStart(p);
    LineStartMeaning(p);
    assert k > 0 ==> s[k - 1] == NEWLINE;
    assert a > 0 ==> p[a - 1] == NEWLINE;
  }

  /** Lines between `base` and `bound`, each ending before the next starts. */
  ghost predicate Apart(ls: seq<Line>, base: nat, bound: nat) {
    && (forall i | 0 <= i < |ls| :: base <= ls[i].start < ls[i].end <= bound)
    && (forall i, j | 0 <= i < j < |ls| :: ls[i].end <= ls[j].start)
  }

  lemma ApartSnoc(ls: seq<Line>, base: nat, bound: nat, l: Line, later: nat)
    requires Apart(ls, base, bound) && base <= bound <= l.start < l.end <= later
    ensures Apart(ls + [l], base, later)
  {
    var more := ls + [l];
    assert forall i | 0 <= i < |ls| :: more[i] == ls[i];
  }

  lemma {:induction false} LinesApart(base: nat, s: seq<byte>)
    ensures Apart(Lines(base, s), base, base + LineStart(s))
  {
    if s != [] {
      hide Apart, Lines, LineStart, Completed;
      var p := s[..|s| - 1];
      LinesApart(base, p);
      LastCompleted(base, s);
      var k, c := LineStart(p), Completed(base, s);
      if c != [] {
        ApartSnoc(Lines(base, p), base, base + k, c[0], base + |s|);
        assert c == [c[0]];
      } else {
        ApartWidens(Lines(base, p), base, base + k, base + LineStart(s));
        assert Lines(base, p) + [] == Lines(base, p);
      }
    }
  }

  lemma LastCompleted(base: nat, s: seq<byte>)
    requires s != []
    ensures var k, c := LineStart(s[..|s| - 1]), Completed(base, s);
      && Lines(base, s) == Lines(base, s[..|s| - 1]) + c
      && k <= LineStart(s) && |c| <= 1
      && (c != [] ==> LineStart(s) == |s| && c[0].start == base + k && c[0].end == base + |s|)
  {
  }

  lemma ApartWidens(ls: seq<Line>, base: nat, bound: nat, later: nat)
    requires Apart(ls, base, bound) && bound <= later
    ensures Apart(ls, base, later)
  {
  }

  /** Lines are disjoint, increasing and inside the stream. */
  lemma LinesOrdered(base: nat, s: seq<byte>)
    ensures var ls := Lines(base, s);
      && Sorted(Starts(ls))
      && (forall i | 0 <= i < |ls| :: base <= ls[i].start < ls[i].end <= base + LineStart(s))
      && (forall i, j | 0 <= i < j < |ls| :: ls[i].end <= ls[j].start)
  {
    hide Lines, LineStart;
    LinesApart(base, s);
  }

  /** `l` is such a line, with its offsets in the file and its bytes. */
  ghost predicate Accepts(base: nat, s: seq<byte>, l: Line) {
    && base <= l.start
    && IsLine(base, s, l.start - base, l.end - base)
    && l.content == s[l.start - base..l.end - base - 1]
  }

  lemma AcceptsInPrefix(base: nat, s: seq<byte>, l: Line)
    requires s != [] && l.end < base + |s|
    ensures Accepts(base, s[..|s| - 1], l) <==> Accepts(base, s, l)
  {
    if base <= l.start < l.end {
      assert s[..|s| - 1][l.start - base..l.end - base - 1] == s[l.start - base..l.end - base - 1];
    }
  }

  /** `s[k..n]` is a line from its start, without its end. */
  ghost predicate OpenSince(s: seq<byte>, k: nat, n: nat) {
    k <= n <= |s| && (k > 0 ==> s[k - 1] == NEWLINE) && forall i | k <= i < n :: s[i] != NEWLINE
  }

  /** Where the line that is open at `n` begins. */
  lemma LineStartAt(s: seq<byte>, n: nat)
    requires n <= |s|
    ensures OpenSince(s, LineStart(s[..n]), n)
  {
    hide LineStart;
    LineStartMeaning(s[..n]);
    assert forall i | 0 <= i < n :: s[..n][i] == s[i];
  }

  lemma CompletedIs(base: nat, s: seq<byte>)
    requires s != []
    ensures var n := |s| - 1;
      var k := LineStart(s[..n]);
      Completed(base, s) == if s[n] == NEWLINE && (k > 0 || base == 0) && n - k <= MAX_LINE
                            then [Line(base + k, base + |s|, s[k..n])] else []
  {
    hide LineStart;
    var n := |s| - 1;
    assert s[..n][LineStart(s[..n])..] == s[LineStart(s[..n])..n];
  }

  lemma CompletedIsAccepted(base: nat, s: seq<byte>)
    requires s != [] && Completed(base, s) != []
    ensures Accepts(base, s, Completed(base, s)[0])
  {
    hide LineStart, Completed, Accepts, OpenSince;
    CompletedIs(base, s);
    LineStartAt(s, |s| - 1);
    AcceptsLast(base, s, LineStart(s[..|s| - 1]));
  }

  lemma AcceptsLast(base: nat, s: seq<byte>, k: nat)
    requires s != [] && k < |s| && s[|s| - 1] == NEWLINE && |s| - 1 - k <= MAX_LINE
    requires (k == 0 ==> base == 0) && OpenSince(s, k, |s| - 1)
    ensures Accepts(base, s, Line(base + k, base + |s|, s[k..|s| - 1]))
  {
  }

  lemma AcceptedIsCompleted(base: nat, s: seq<byte>, l: Line)
    requires s != [] && l.end == base + |s| && Accepts(base, s, l)
    ensures Completed(base, s) == [l]
  {
    hide LineStart, Completed;
    CompletedIs(base, s);
    LineStartAt(s, |s| - 1);
    var k, a := LineStart(s[..|s| - 1]), l.start - base;
    assert k == a;
  }

  /** The last byte completes exactly the accepted line that ends with it. */
  lemma CompletedExact(base: nat, s: seq<byte>, l: Line)
    requires s != [] && l.end == base + |s|
    ensures Accepts(base, s, l) <==> Completed(base, s) == [l]
  {
    hide Accepts;
    if Accepts(base, s, l) {
      AcceptedIsCompleted(base, s, l);
    } else if Completed(base, s) != [] {
      CompletedIsAccepted(base, s);
    }
  }

  /** `Lines` lists every accepted line, and nothing else. */
  lemma {:induction false} LinesExact(base: nat, s: seq<byte>, l: Line)
    ensures l in Lines(base, s) <==> Accepts(base, s, l)
  {
    if s != [] {
      LinesOrdered(base, s[..|s| - 1]);
      if l.end < base + |s| {
        LinesExact(base, s[..|s| - 1], l);
        AcceptsInPrefix(base, s, l);
      } else if l.end == base + |s| {
        CompletedExact(base, s, l);
      }
    }
  }

  /** On increasing offsets eviction keeps a record exactly when it is inside the byte
      window and among the newest `MAX_ENTRIES`. */
  lemma {:induction false} ExcessMeaning(starts: seq<nat>, floor: nat, i: nat)
    requires Sorted(starts) && i < |starts|
    ensures Excess(starts, floor) <= i <==> (floor <= starts[i] && |starts| - i <= MAX_ENTRIES)
  {
    if |starts| > MAX_ENTRIES || starts[0] < floor {
      if i > 0 {
        ExcessMeaning(starts[1..], floor, i - 1);
      }
    } else if i > 0 {
      assert starts[0] < starts[i];
    }
  }

  /** Evicting early, when fewer records are known and the floor is lower, never gives up
      a record that a later eviction would keep. */
  lemma ExcessGrows(starts: seq<nat>, floor: nat, more: seq<nat>, floor': nat)
    requires Sorted(starts + more) && floor <= floor'
    ensures Excess(starts, floor) <= Excess(starts + more, floor')
  {
    var all := starts + more;
    assert Sorted(starts) by { assert starts == all[..|starts|]; }
    var e := Excess(starts, floor);
    if e > 0 {
      ExcessMeaning(starts, floor, e - 1);
      ExcessMeaning(all, floor', e - 1);
    }
  }

  /** Evicting what an earlier eviction left gives the same window as evicting once. */
  lemma {:induction false} ExcessResumes(starts: seq<nat>, floor: nat, d: nat)
    requires d <= Excess(starts, floor)
    ensures Excess(starts[d..], floor) == Excess(starts, floor) - d
  {
    if d > 0 {
      ExcessResumes(starts[1..], floor, d - 1);
      assert starts[d..] == starts[1..][d - 1..];
    } else {
      assert starts[d..] == starts;
    }
  }
}
