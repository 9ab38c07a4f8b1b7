/**
 Console output of a core as bounded records. A line either opens a record or continues
 the one that is held on its stream; the two streams are aggregated independently.
 Per-core header parsing is an input: every line comes with what its header said.
 */
module LogParser {
  import opened Prelude

  const MAX_CONTINUATIONS: nat := 16
  const MAX_TEXT: nat := 16 * 1024
  const MAX_TARGET: nat := 2048
  const MAX_STAMP: nat := 256
  const MAX_FIELDS: nat := 64
  const MAX_FIELD: nat := 1024
  const NEWLINE: byte := 10

  datatype Stream = Stdout | Stderr

  datatype Level = Trace | Debug | Info | Warning | Error | Fatal

  datatype Field = Field(key: Text, value: Text)

  datatype Header = Header(level: Level, stamp: Option<Text>, target: Option<Text>, message: Text, fields: seq<Field>)

  datatype Line = Line(stream: Stream, text: Text, at: int, header: Option<Header>)

  datatype Frame = Frame(stream: Stream, level: Level, at: int, stamp: Option<Text>, target: Option<Text>,
                           message: Text,
                         fields: seq<Field>, raw: Text, truncated: bool)

  datatype Pending = Pending(frame: Frame, continuations: nat)

  // ---------- Bounded text ----------

  /** The loop that backs off to a character boundary. */
  method CharBoundary(t: Text, max: nat) returns (end: nat)
    requires max <= |t|
    ensures end == |CutAt(t, max)|
  {
    end := max;
    while !IsBoundary(t, end)
      invariant end <= |t| && |CutAt(t, end)| == |CutAt(t, max)|
      decreases end
    {
      end := end - 1;
    }
  }

  method TruncateText(t: Text, max: nat) returns (text: Text, cut: bool)
    ensures text == CutAt(t, max) && (cut <==> |t| > max)
  {
    if |t| <= max {
      return t, false;
    }
    var end := CharBoundary(t, max);
    return t[..end], true;
  }

  /** A newline and as much of the line as fits; a line of which nothing fits is dropped. */
  function Appended(t: Text, line: Text, max: nat): Text {
    if |t| >= max then t
    else if line == [] then t + [NEWLINE]
    else
      var kept := CutAt(line, max - |t| - 1);
      if kept == [] then t else t + [NEWLINE] + kept
  }

  predicate Fits(t: Text, line: Text, max: nat) {
    |t| + 1 + |line| <= max
  }

  method AppendBounded(t: Text, line: Text, max: nat) returns (text: Text, cut: bool)
    ensures text == Appended(t, line, max) && (cut <==> !Fits(t, line, max))
  {
    if |t| >= max {
      return t, true;
    }
    if line == [] {
      return t + [NEWLINE], false;
    }
    var budget := max - |t| - 1;
    var end := CharBoundary(line, if budget < |line| then budget else |line|);
    assert budget >= |line| ==> CutAt(line, budget) == line == CutAt(line, |line|);
    if end == 0 {
      return t, true;
    }
    return t + [NEWLINE] + line[..end], end < |line|;
  }

  lemma AppendedFits(t: Text, line: Text, max: nat)
    requires |t| <= max
    ensures |Appended(t, line, max)| <= max
    ensures Fits(t, line, max) ==> Appended(t, line, max) == t + [NEWLINE] + line
  {
  }

  // ---------- One frame ----------

  predicate Within(f: Frame) {
    && |f.message| <= MAX_TEXT && |f.raw| <= MAX_TEXT
    && (f.target.Some? ==> |f.target.value| <= MAX_TARGET)
    && (f.stamp.Some? ==> |f.stamp.value| <= MAX_STAMP)
    && FieldsWithin(f.fields)
  }

  predicate FieldWithin(f: Field) {
    |f.key| <= MAX_FIELD && |f.value| <= MAX_FIELD
  }

  predicate FieldsWithin(fields: seq<Field>) {
    |fields| <= MAX_FIELDS && forall i | 0 <= i < |fields| :: FieldWithin(fields[i])
  }

  function CutOption(t: Option<Text>, max: nat): Option<Text> {
    if t.Some? then Some(CutAt(t.value, max)) else None
  }

  function CutField(f: Field): (c: Field)
    ensures FieldWithin(c) && (FieldWithin(f) ==> c == f)
  {
    Field(CutAt(f.key, MAX_FIELD), CutAt(f.value, MAX_FIELD))
  }

  function CutFields(fields: seq<Field>): (cut: seq<Field>)
    ensures FieldsWithin(cut) && (FieldsWithin(fields) ==> cut == fields)
  {
    var kept := if |fields| > MAX_FIELDS then fields[..MAX_FIELDS] else fields;
    seq(|kept|, i requires 0 <= i < |kept| => CutField(kept[i]))
  }

  /** A frame brought within its caps. */
  function Bounded(f: Frame): (b: Frame)
    ensures Within(b) && (b.truncated <==> f.truncated || !Within(f))
    ensures Within(f) ==> b == f
  {
    f.(message := CutAt(f.message, MAX_TEXT), raw := CutAt(f.raw, MAX_TEXT), target := CutOption(f.target, MAX_TARGET),
       stamp := CutOption(f.stamp, MAX_STAMP), fields := CutFields(f.fields), truncated := f.truncated || !Within(f))
  }

  method BoundFrame(f: Frame) returns (b: Frame)
    ensures b == Bounded(f)
  {
    var message, cut := TruncateText(f.message, MAX_TEXT);
    var raw, rawCut := TruncateText(f.raw, MAX_TEXT);
    cut := cut || rawCut;
    var target, stamp := f.target, f.stamp;
    if f.target.Some? {
      var t, c := TruncateText(f.target.value, MAX_TARGET);
      target, cut := Some(t), cut || c;
    }
    if f.stamp.Some? {
      var t, c := TruncateText(f.stamp.value, MAX_STAMP);
      stamp, cut := Some(t), cut || c;
    }
    var fields, fieldsCut := BoundFields(f.fields);
    b := f.(message := message, raw := raw, target := target, stamp := stamp, fields := fields,
            truncated := f.truncated || cut || fieldsCut);
  }

  method BoundFields(fields: seq<Field>) returns (bounded: seq<Field>, cut: bool)
    ensures bounded == CutFields(fields)
    ensures cut <==> !FieldsWithin(fields)
  {
    cut := |fields| > MAX_FIELDS;
    var kept := if cut then fields[..MAX_FIELDS] else fields;
    bounded := [];
    for i := 0 to |kept|
      invariant |bounded| == i && forall j | 0 <= j < i :: bounded[j] == CutField(kept[j])
      invariant cut <==> (|fields| > MAX_FIELDS || exists j | 0 <= j < i :: !FieldWithin(kept[j]))
    {
      var key, keyCut := TruncateText(kept[i].key, MAX_FIELD);
      var value, valueCut := TruncateText(kept[i].value, MAX_FIELD);
      bounded := bounded + [Field(key, value)];
      cut := cut || keyCut || valueCut;
    }
  }

  // ---------- Records ----------

  /** `Error:` and `warning:` */
  const ERROR_ROOT: Text := [69, 114, 114, 111, 114, 58]
  const WARNING_ROOT: Text := [119, 97, 114, 110, 105, 110, 103, 58]

  predicate IsError(line: Line) {
    ERROR_ROOT <= line.text
  }

  predicate IsWarning(line: Line) {
    WARNING_ROOT <= line.text
  }

  predicate Severe(level: Level) {
    level.Error? || level.Fatal?
  }

  /** A line that never continues a record. */
  predicate Opens(line: Line) {
    line.header.Some? || IsError(line) || IsWarning(line)
  }

  /** A record that waits for continuations. */
  predicate Waits(line: Line) {
    if line.header.Some? then Severe(line.header.value.level) else IsError(line) && line.stream.Stderr?
  }

  function Opened(line: Line): Frame {
    match line.header
    case Some(h) => Frame(line.stream, h.level, line.at, h.stamp, h.target, h.message, h.fields, line.text, false)
    case None =>
      var level := if IsError(line) then Error else if IsWarning(line) then Warning
                   else if line.stream.Stdout? then Info else Warning;
      Frame(line.stream, level, line.at, None, None, line.text, [], line.text, false)
  }

  /** Both texts take the line; once something is left behind, no further line is taken. */
  function Continued(p: Pending, line: Text): Pending {
    if p.continuations == MAX_CONTINUATIONS then p.(frame := p.frame.(truncated := true))
    else
      var f := p.frame;
      var next := f.(raw := Appended(f.raw, line, MAX_TEXT), message := Appended(f.message, line, MAX_TEXT));
      if Fits(f.raw, line, MAX_TEXT) && Fits(f.message, line, MAX_TEXT) then Pending(next, p.continuations + 1)
      else Pending(next.(truncated := true), MAX_CONTINUATIONS)
  }

  datatype Group = Group(root: Line, rest: seq<Text>)

  /** The lines of one stream as records: a line continues the record before it exactly
      when that one waits and the line does not open its own. */
  function Grouped(lines: seq<Line>): seq<Group> {
    if lines == [] then []
    else
      var before, line := Grouped(lines[..|lines| - 1]), lines[|lines| - 1];
      if before != [] && Waits(before[|before| - 1].root) && !Opens(line)
      then before[..|before| - 1] + [Extended(before[|before| - 1], line.text)]
      else before + [Group(line, [])]
  }

  function Extended(g: Group, text: Text): Group {
    g.(rest := g.rest + [text])
  }

  function PendingOf(g: Group): Pending
    decreases |g.rest|
  {
    if g.rest == [] then Pending(Bounded(Opened(g.root)), 0)
    else Continued(PendingOf(g.(rest := g.rest[..|g.rest| - 1])), g.rest[|g.rest| - 1])
  }

  function Frames(groups: seq<Group>): seq<Frame> {
    seq(|groups|, i requires 0 <= i < |groups| => PendingOf(groups[i]).frame)
  }

  function Only(lines: seq<Line>, stream: Stream): seq<Line> {
    if lines == [] then []
    else
      var before := Only(lines[..|lines| - 1], stream);
      if lines[|lines| - 1].stream == stream then before + [lines[|lines| - 1]] else before
  }

  function OnlyFrames(frames: seq<Frame>, stream: Stream): seq<Frame> {
    if frames == [] then []
    else
      var before := OnlyFrames(frames[..|frames| - 1], stream);
      if frames[|frames| - 1].stream == stream then before + [frames[|frames| - 1]] else before
  }

  // ---------- What a frame says about its record ----------

  function Joined(root: Text, rest: seq<Text>): Text {
    if rest == [] then root else Joined(root, rest[..|rest| - 1]) + [NEWLINE] + rest[|rest| - 1]
  }

  /** Every frame is within its caps and keeps what its root line said. */
  lemma {:induction false} FrameWithin(g: Group)
    ensures Within(PendingOf(g).frame) && PendingOf(g).frame.stream == g.root.stream
    ensures PendingOf(g).frame.at == g.root.at
    ensures PendingOf(g).continuations <= MAX_CONTINUATIONS
    decreases |g.rest|
  {
    if g.rest != [] {
      var before := g.(rest := g.rest[..|g.rest| - 1]);
      FrameWithin(before);
      var f := PendingOf(before).frame;
      AppendedFits(f.raw, g.rest[|g.rest| - 1], MAX_TEXT);
      AppendedFits(f.message, g.rest[|g.rest| - 1], MAX_TEXT);
    }
  }

  ghost predicate Unharmed(g: Group) {
    var f := Opened(g.root);
    && Within(f) && |g.rest| <= MAX_CONTINUATIONS
    && |Joined(f.raw, g.rest)| <= MAX_TEXT && |Joined(f.message, g.rest)| <= MAX_TEXT
  }

  function Exact(g: Group): Frame {
    var f := Opened(g.root);
    f.(raw := Joined(f.raw, g.rest), message := Joined(f.message, g.rest))
  }

  /** A frame is not marked as truncated exactly when nothing had to be cut, and then its
      texts are the root and all its continuations. */
  lemma {:induction false} UntruncatedIsExact(g: Group)
    ensures !PendingOf(g).frame.truncated <==> Unharmed(g)
    ensures Unharmed(g) ==> PendingOf(g).continuations == |g.rest|
    ensures Unharmed(g) ==> PendingOf(g).frame == Exact(g)
    decreases |g.rest|
  {
    if g.rest != [] {
      var before, line := g.(rest := g.rest[..|g.rest| - 1]), g.rest[|g.rest| - 1];
      UntruncatedIsExact(before);
      FrameWithin(before);
      var f := PendingOf(before).frame;
      AppendedFits(f.raw, line, MAX_TEXT);
      AppendedFits(f.message, line, MAX_TEXT);
      var o := Opened(g.root);
      assert Joined(o.raw, g.rest) == Joined(o.raw, before.rest) + [NEWLINE] + line;
      assert Joined(o.message, g.rest) == Joined(o.message, before.rest) + [NEWLINE] + line;
      if Unharmed(before) {
        assert f.raw == Joined(o.raw, before.rest) && f.message == Joined(o.message, before.rest);
      }
    }
  }

  // ---------- Both streams ----------

  function Last<T>(s: seq<T>): T
    requires s != []
  {
    s[|s| - 1]
  }

  /** What is out and what is held of one stream are the frames of its records, in order. */
  ghost predicate StreamOk(lines: seq<Line>, output: seq<Frame>, pending: map<Stream, Pending>, stream: Stream) {
    var groups := Grouped(Only(lines, stream));
    && (stream in pending <==> groups != [] && Waits(Last(groups).root))
    && (stream in pending ==> pending[stream] == PendingOf(Last(groups)))
    && Frames(groups) == if stream in pending then OnlyFrames(output, stream) + [pending[stream].frame]
                         else OnlyFrames(output, stream)
  }

  lemma OnlySnoc(lines: seq<Line>, line: Line, stream: Stream)
    ensures Only(lines + [line], stream) == if line.stream == stream then Only(lines, stream) + [line]
                                              else Only(lines, stream)
  {
    assert (lines + [line])[..|lines|] == lines;
  }

  lemma OnlyFramesSnoc(frames: seq<Frame>, frame: Frame, stream: Stream)
    ensures OnlyFrames(frames + [frame], stream) ==
            if frame.stream == stream then OnlyFrames(frames, stream) + [frame] else OnlyFrames(frames, stream)
  {
    assert (frames + [frame])[..|frames|] == frames;
  }

  lemma GroupedSnoc(lines: seq<Line>, line: Line)
    ensures var before := Grouped(lines);
      Grouped(lines + [line]) ==
        if before != [] && Waits(Last(before).root) && !Opens(line)
        then before[..|before| - 1] + [Extended(Last(before), line.text)]
        else before + [Group(line, [])]
  {
    assert (lines + [line])[..|lines|] == lines;
  }

  lemma {:induction false} GroupedRoots(lines: seq<Line>, stream: Stream)
    ensures forall g | g in Grouped(Only(lines, stream)) :: g.root.stream == stream
  {
    if lines != [] {
      var before, line := lines[..|lines| - 1], lines[|lines| - 1];
      assert lines == before + [line];
      GroupedRoots(before, stream);
      OnlySnoc(before, line, stream);
      if line.stream == stream {
        var groups := Grouped(Only(before, stream));
        GroupedSnoc(Only(before, stream), line);
        if groups != [] {
          assert Last(groups) in groups;
        }
      }
    }
  }

  lemma FramesSnoc(groups: seq<Group>, g: Group)
    ensures Frames(groups + [g]) == Frames(groups) + [PendingOf(g).frame]
  {
  }

  lemma FramesSplit(groups: seq<Group>)
    requires groups != []
    ensures Frames(groups) == Frames(groups[..|groups| - 1]) + [PendingOf(Last(groups)).frame]
  {
    FramesSnoc(groups[..|groups| - 1], Last(groups));
    assert groups == groups[..|groups| - 1] + [Last(groups)];
  }

  /** A line on the other stream changes nothing here. */
  lemma OtherLine(lines: seq<Line>, output: seq<Frame>, pending: map<Stream, Pending>, stream: Stream, line: Line,
                  frames: seq<Frame>, after: map<Stream, Pending>)
    requires StreamOk(lines, output, pending, stream) && line.stream != stream && |frames| <= 2
    requires forall f | f in frames :: f.stream == line.stream
    requires (stream in after <==> stream in pending) && (stream in pending ==> after[stream] == pending[stream])
    ensures StreamOk(lines + [line], output + frames, after, stream)
  {
    hide Grouped, Frames, PendingOf, Waits, OnlyFrames;
    OnlySnoc(lines, line, stream);
    OthersAdded(output, frames, line.stream, stream);
  }

  lemma {:induction false} OthersAdded(output: seq<Frame>, frames: seq<Frame>, from: Stream, stream: Stream)
    requires from != stream && forall f | f in frames :: f.stream == from
    ensures OnlyFrames(output + frames, stream) == OnlyFrames(output, stream)
  {
    if frames == [] {
      assert output + frames == output;
    } else {
      var rest, f := frames[..|frames| - 1], frames[|frames| - 1];
      OthersAdded(output, rest, from, stream);
      assert output + frames == output + rest + [f];
      OnlyFramesSnoc(output + rest, f, stream);
    }
  }

  lemma ContinuationLine(lines: seq<Line>, output: seq<Frame>, pending: map<Stream, Pending>, line: Line)
    requires StreamOk(lines, output, pending, line.stream) && line.stream in pending && !Opens(line)
    ensures StreamOk(lines + [line], output, pending[line.stream := Continued(pending[line.stream], line.text)],
                     line.stream)
  {
    hide Continued, Waits, Opens, Grouped, Frames, PendingOf, Only, OnlyFrames;
    var s := line.stream;
    var before := Grouped(Only(lines, s));
    OnlySnoc(lines, line, s);
    GroupedSnoc(Only(lines, s), line);
    var g := Extended(Last(before), line.text);
    ExtendedPending(Last(before), line.text);
    FramesSplit(before);
    FramesSnoc(before[..|before| - 1], g);
    assert Last(before[..|before| - 1] + [g]) == g;
    SnocInjective(OnlyFrames(output, s), Frames(before[..|before| - 1]), pending[s].frame);
  }

  lemma SnocInjective<T>(a: seq<T>, b: seq<T>, x: T)
    requires a + [x] == b + [x]
    ensures a == b
  {
    assert (a + [x])[..|a|] == a && (b + [x])[..|b|] == b;
  }

  lemma ExtendedPending(g: Group, text: Text)
    ensures PendingOf(Extended(g, text)) == Continued(PendingOf(g), text)
  {
    hide Continued;
    assert Extended(g, text).rest[..|g.rest|] == g.rest;
  }

  lemma RootLine(lines: seq<Line>, output: seq<Frame>, pending: map<Stream, Pending>, line: Line)
    requires StreamOk(lines, output, pending, line.stream) && (Opens(line) || line.stream !in pending)
    ensures var s, root := line.stream, Pending(Bounded(Opened(line)), 0);
      var flushed := if s in pending then output + [pending[s].frame] else output;
      if Waits(line) then StreamOk(lines + [line], flushed, pending[s := root], s)
      else StreamOk(lines + [line], flushed + [root.frame], pending - {s}, s)
  {
    hide Waits, Opens, Bounded, Opened, Grouped, Frames, Only, OnlyFrames;
    var s, root := line.stream, Pending(Bounded(Opened(line)), 0);
    var before := Grouped(Only(lines, s));
    OnlySnoc(lines, line, s);
    GroupedSnoc(Only(lines, s), line);
    FramesSnoc(before, Group(line, []));
    assert PendingOf(Group(line, [])) == root;
    assert Last(before + [Group(line, [])]) == Group(line, []);
    GroupStream(before, lines, s);
    RootStream(line);
    var flushed := if s in pending then output + [pending[s].frame] else output;
    if s in pending {
      OnlyFramesSnoc(output, pending[s].frame, s);
    }
    OnlyFramesSnoc(flushed, root.frame, s);
  }

  lemma RootStream(line: Line)
    ensures Bounded(Opened(line)).stream == line.stream
  {
  }

  lemma GroupStream(groups: seq<Group>, lines: seq<Line>, stream: Stream)
    requires groups == Grouped(Only(lines, stream))
    ensures groups != [] ==> PendingOf(Last(groups)).frame.stream == stream
  {
    hide PendingOf;
    if groups != [] {
      GroupedRoots(lines, stream);
      FrameWithin(Last(groups));
    }
  }

  /** The held record of a stream was opened by the line at `openedAt`. */
  ghost predicate RootOk(lines: seq<Line>, pending: map<Stream, Pending>, openedAt: map<Stream, nat>, stream: Stream) {
    var groups := Grouped(Only(lines, stream));
    stream in pending ==>
      stream in openedAt && openedAt[stream] < |lines| && groups != [] && lines[openedAt[stream]] == Last(groups).root
  }

  /** With a record held on each stream, `newest` names the one opened last. */
  ghost predicate NewestOk(pending: map<Stream, Pending>, newest: Option<Stream>, openedAt: map<Stream, nat>) {
    Stdout in pending && Stderr in pending && Stdout in openedAt && Stderr in openedAt ==>
      newest == Some(if openedAt[Stdout] < openedAt[Stderr] then Stderr else Stdout)
  }

  lemma OtherRoot(lines: seq<Line>, pending: map<Stream, Pending>, openedAt: map<Stream, nat>, stream: Stream,
                  line: Line, after: map<Stream, Pending>, later: map<Stream, nat>)
    requires RootOk(lines, pending, openedAt, stream) && line.stream != stream
    requires (stream in after ==> stream in pending)
    requires stream in openedAt ==> stream in later && later[stream] == openedAt[stream]
    ensures RootOk(lines + [line], after, later, stream)
  {
    hide Grouped;
    OnlySnoc(lines, line, stream);
  }

  lemma ContinuedRoot(lines: seq<Line>, output: seq<Frame>, pending: map<Stream, Pending>, openedAt: map<Stream, nat>,
                      line: Line, after: map<Stream, Pending>)
    requires RootOk(lines, pending, openedAt, line.stream) && line.stream in pending && !Opens(line)
    requires StreamOk(lines, output, pending, line.stream)
    ensures RootOk(lines + [line], after, openedAt, line.stream)
  {
    hide Grouped, Opens, Waits, Frames, Only, OnlyFrames;
    OnlySnoc(lines, line, line.stream);
    GroupedSnoc(Only(lines, line.stream), line);
  }

  lemma NewRoot(lines: seq<Line>, pending: map<Stream, Pending>, line: Line, openedAt: map<Stream, nat>,
                after: map<Stream, Pending>)
    requires line.stream in openedAt && openedAt[line.stream] == |lines|
    requires Opens(line) || Grouped(Only(lines, line.stream)) == []
        || !Waits(Last(Grouped(Only(lines, line.stream))).root)
    ensures RootOk(lines + [line], after, openedAt, line.stream)
  {
    hide Grouped, Opens, Waits, Only;
    OnlySnoc(lines, line, line.stream);
    GroupedSnoc(Only(lines, line.stream), line);
  }

  lemma FreeToOpen(lines: seq<Line>, output: seq<Frame>, pending: map<Stream, Pending>, stream: Stream)
    requires StreamOk(lines, output, pending, stream)
    ensures stream in pending <==> Grouped(Only(lines, stream)) != [] && Waits(Last(Grouped(Only(lines, stream))).root)
    ensures stream in pending ==> pending[stream].frame.stream == stream
  {
    hide Grouped, Waits, Only, Frames, PendingOf;
    GroupStream(Grouped(Only(lines, stream)), lines, stream);
  }

  function Other(stream: Stream): Stream {
    if stream.Stdout? then Stderr else Stdout
  }

  function Emitted(first: Option<Frame>, second: Option<Frame>): seq<Frame> {
    (if first.Some? then [first.value] else []) + (if second.Some? then [second.value] else [])
  }

  class Parser {
    var pending: map<Stream, Pending>
    var newest: Option<Stream>
    ghost var lines: seq<Line>
    ghost var output: seq<Frame>
    ghost var openedAt: map<Stream, nat>

    ghost predicate Valid()
      reads this
    {
      && (forall s :: StreamOk(lines, output, pending, s) && RootOk(lines, pending, openedAt, s))
      && NewestOk(pending, newest, openedAt)
    }

    constructor ()
      ensures Valid() && lines == [] && output == []
    {
      pending, newest := map[], None;
      lines, output, openedAt := [], [], map[];
    }

    /** Takes one line; up to two frames leave: a held one that it ends, and its own. */
    method PushAt(line: Line) returns (first: Option<Frame>, second: Option<Frame>)
      requires Valid()
      modifies this
      ensures Valid() && lines == old(lines) + [line] && output == old(output) + Emitted(first, second)
    {
      hide Valid;
      if line.header.None? && !IsError(line) && !IsWarning(line) && line.stream in pending {
        Continue(line);
        return None, None;
      }
      var frame := BoundFrame(Opened(line));
      first, second := Emit(line, frame);
    }

    method Append(p: Pending, line: Text) returns (next: Pending)
      ensures next == Continued(p, line)
    {
      if p.continuations == MAX_CONTINUATIONS {
        return p.(frame := p.frame.(truncated := true));
      }
      var raw, rawCut := AppendBounded(p.frame.raw, line, MAX_TEXT);
      var message, messageCut := AppendBounded(p.frame.message, line, MAX_TEXT);
      var frame := p.frame.(raw := raw, message := message);
      if rawCut || messageCut {
        return Pending(frame.(truncated := true), MAX_CONTINUATIONS);
      }
      return Pending(frame, p.continuations + 1);
    }

    method Continue(line: Line)
      requires Valid() && line.stream in pending && !Opens(line)
      modifies this
      ensures Valid() && lines == old(lines) + [line] && output == old(output)
    {
      hide StreamOk, RootOk, Continued, Opens;
      var p := Append(pending[line.stream], line.text);
      var after := pending[line.stream := p];
      assert StreamOk(lines, output, pending, line.stream) && RootOk(lines, pending, openedAt, line.stream);
      ContinuationLine(lines, output, pending, line);
      ContinuedRoot(lines, output, pending, openedAt, line, after);
      var other := Other(line.stream);
      assert StreamOk(lines, output, pending, other) && RootOk(lines, pending, openedAt, other);
      OtherLine(lines, output, pending, other, line, [], after);
      OtherRoot(lines, pending, openedAt, other, line, after, openedAt);
      assert output + [] == output;
      pending := after;
      lines := lines + [line];
      BothStreams(line.stream);
    }

    lemma BothStreams(stream: Stream)
      requires StreamOk(lines, output, pending, stream) && RootOk(lines, pending, openedAt, stream)
      requires StreamOk(lines, output, pending, Other(stream)) && RootOk(lines, pending, openedAt, Other(stream))
      requires NewestOk(pending, newest, openedAt)
      ensures Valid()
    {
      hide StreamOk, RootOk;
      forall s ensures StreamOk(lines, output, pending, s) && RootOk(lines, pending, openedAt, s) {
        assert s == stream || s == Other(stream);
      }
    }

    /** Ends what is held on the stream; the new record is held too if it waits. */
    method Emit(line: Line, frame: Frame) returns (first: Option<Frame>, second: Option<Frame>)
      requires Valid() && (Opens(line) || line.stream !in pending) && frame == Bounded(Opened(line))
      modifies this
      ensures Valid() && lines == old(lines) + [line] && output == old(output) + Emitted(first, second)
    {
      hide StreamOk, RootOk, Opens, Bounded, Opened, Waits;
      var s, other := line.stream, Other(line.stream);
      assert StreamOk(lines, output, pending, s) && StreamOk(lines, output, pending, other)
        && RootOk(lines, pending, openedAt, other);
      RootLine(lines, output, pending, line);
      RootStream(line);
      FreeToOpen(lines, output, pending, s);
      first := if s in pending then Some(pending[s].frame) else None;
      second := if Waits(line) then None else Some(frame);
      var after := if Waits(line) then pending[s := Pending(frame, 0)] else pending - {s};
      ghost var later := openedAt[s := |lines|];
      OtherLine(lines, output, pending, other, line, Emitted(first, second), after);
      OtherRoot(lines, pending, openedAt, other, line, after, later);
      NewRoot(lines, pending, line, later, after);
      OpenedBefore(other);
      if Waits(line) {
        newest := Some(s);
      }
      EmittedInOrder(output, first, second);
      pending, output, lines, openedAt := after, output + Emitted(first, second), lines + [line], later;
      BothStreams(s);
    }

    lemma OpenedBefore(stream: Stream)
      requires RootOk(lines, pending, openedAt, stream)
      ensures stream in pending ==> stream in openedAt && openedAt[stream] < |lines|
    {
    }

    /** Releases what is still held, the record that was opened first before the other. */
    method Finish() returns (first: Option<Frame>, second: Option<Frame>)
      requires Valid()
      modifies this
      ensures lines == old(lines) && output == old(output) + Emitted(first, second) && pending == map[]
      ensures forall s :: OnlyFrames(output, s) == Frames(Grouped(Only(lines, s)))
      ensures first.Some? && second.Some? ==>
        && first.value.stream in old(openedAt) && second.value.stream in old(openedAt)
        && old(openedAt)[first.value.stream] < old(openedAt)[second.value.stream]
    {
      hide StreamOk, RootOk, Grouped, Frames, OnlyFrames, Only;
      forall s ensures StreamOk(lines, output, pending, s) && RootOk(lines, pending, openedAt, s) {
      }
      OpenedApart();
      FreeToOpen(lines, output, pending, Stdout);
      FreeToOpen(lines, output, pending, Stderr);
      var out := if Stdout in pending then Some(pending[Stdout].frame) else None;
      var err := if Stderr in pending then Some(pending[Stderr].frame) else None;
      if newest == Some(Stdout) {
        first, second := err, out;
      } else {
        first, second := out, err;
      }
      Released(lines, output, pending, first, second, Stdout);
      Released(lines, output, pending, first, second, Stderr);
      pending, newest := map[], None;
      output := output + Emitted(first, second);
      forall s ensures OnlyFrames(output, s) == Frames(Grouped(Only(lines, s))) {
        assert s == Stdout || s == Stderr;
      }
    }

    lemma OpenedApart()
      requires Valid()
      ensures Stdout in pending && Stderr in pending ==>
        Stdout in openedAt && Stderr in openedAt && openedAt[Stdout] != openedAt[Stderr]
    {
      hide Grouped, Only, StreamOk;
      if Stdout in pending && Stderr in pending {
        assert RootOk(lines, pending, openedAt, Stdout) && RootOk(lines, pending, openedAt, Stderr);
        GroupedRoots(lines, Stdout);
        GroupedRoots(lines, Stderr);
        assert Last(Grouped(Only(lines, Stdout))) in Grouped(Only(lines, Stdout));
        assert Last(Grouped(Only(lines, Stderr))) in Grouped(Only(lines, Stderr));
      }
    }
  }

  lemma Released(lines: seq<Line>, output: seq<Frame>, pending: map<Stream, Pending>, first: Option<Frame>,
                 second: Option<Frame>, stream: Stream)
    requires StreamOk(lines, output, pending, stream)
    requires stream in pending ==> (first == Some(pending[stream].frame) || second == Some(pending[stream].frame))
    requires first.Some? && first.value.stream == stream ==> stream in pending && first.value == pending[stream].frame
    requires second.Some? && second.value.stream == stream ==>
      stream in pending && second.value == pending[stream].frame
    requires first.Some? && second.Some? ==> first.value.stream != second.value.stream
    requires stream in pending ==> pending[stream].frame.stream == stream
    ensures OnlyFrames(output + Emitted(first, second), stream) == Frames(Grouped(Only(lines, stream)))
  {
    hide Grouped, Frames, OnlyFrames, Only, PendingOf, Waits;
    EmittedInOrder(output, first, second);
    var flushed := if first.Some? then output + [first.value] else output;
    if first.Some? {
      OnlyFramesSnoc(output, first.value, stream);
    }
    if second.Some? {
      OnlyFramesSnoc(flushed, second.value, stream);
    }
  }

  /** Whatever is read, every frame that leaves, now or at the end, is within its caps. */
  lemma EveryFrameWithin(lines: seq<Line>, stream: Stream, i: nat)
    requires i < |Frames(Grouped(Only(lines, stream)))|
    ensures Within(Frames(Grouped(Only(lines, stream)))[i]) && Frames(Grouped(Only(lines, stream)))[i].stream == stream
  {
    hide PendingOf, Within;
    FrameWithin(Grouped(Only(lines, stream))[i]);
    GroupedRoots(lines, stream);
  }

  lemma EmittedInOrder(output: seq<Frame>, first: Option<Frame>, second: Option<Frame>)
    ensures var flushed := if first.Some? then output + [first.value] else output;
      output + Emitted(first, second) == if second.Some? then flushed + [second.value] else flushed
  {
  }
}
