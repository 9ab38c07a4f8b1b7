/**
 Following a log file: each refresh indexes the next batch, and a file that was replaced
 or cut short is indexed afresh. Whether the file was replaced is told by its identity,
 its name, its length and its first bytes.
 */
module LogRefresh {
  import opened Prelude
  import opened LineStream
  import opened LogIndex
  import opened LogPager

  const HEAD: nat := 256

  /** The file as one read finds it. */
  datatype Found = Found(name: string, identity: string, content: seq<byte>) {
    function Head(): seq<byte> {
      if |content| < HEAD then content else content[..HEAD]
    }
  }

  predicate SharedPrefix(a: seq<byte>, b: seq<byte>) {
    a <= b || b <= a
  }

  /** How far one batch reads. */
  function Upto(next: nat, length: nat): nat {
    if length - next > MAX_BATCH then next + MAX_BATCH else if next < length then length else next
  }

  /** The file still holds the bytes that the index has read. */
  ghost predicate Agrees(index: Index, file: seq<byte>)
    reads index
  {
    && index.base + |index.stream| <= |file|
    && index.stream == file[index.base..index.base + |index.stream|]
  }

  lemma NextRead(index: Index)
    requires index.Valid()
    ensures index.nextRead == index.base + |index.stream|
  {
    hide Indexed, LineStart, Retained, DescribeAll, Kept, Tally, Lines, Excess, Starts, Floor;
  }

  /** One batch more agrees with the file exactly if the rest did. */
  lemma AgreesOn(file: seq<byte>, base: nat, s: seq<byte>, upto: nat)
    requires base + |s| <= upto <= |file|
    ensures s == file[base..base + |s|] <==> s + file[base + |s|..upto] == file[base..upto]
  {
    var mid := base + |s|;
    assert file[base..upto] == file[base..mid] + file[mid..upto];
    assert (s + file[mid..upto])[..|s|] == s && file[base..upto][..|s|] == file[base..mid];
  }

  /** Appends the next batch of the file. */
  method ReadOn(index: Index, file: seq<byte>)
    requires index.Valid() && index.nextRead <= |file|
    modifies index
    ensures index.Valid() && index.base == old(index.base)
    ensures index.nextRead == Upto(old(index.nextRead), |file|)
    ensures index.stream == Extended(old(index.stream), file, old(index.nextRead), index.nextRead)
    ensures Agrees(index, file) <==> old(Agrees(index, file))
  {
    hide Index.Valid;
    NextRead(index);
    var next := index.nextRead;
    ghost var before := index.stream;
    AgreesOn(file, index.base, before, Upto(next, |file|));
    var _ := index.Append(next, file[next..Upto(next, |file|)]);
    NextRead(index);
  }

  /** `before` and then the file from `a` to `b`. */
  function Extended(before: seq<byte>, file: seq<byte>, a: nat, b: nat): seq<byte> {
    if a <= b <= |file| then before + file[a..b] else before
  }

  lemma ExtendedTwice(before: seq<byte>, file: seq<byte>, a: nat, b: nat, c: nat)
    requires a <= b <= c <= |file|
    ensures Extended(Extended(before, file, a, b), file, b, c) == Extended(before, file, a, c)
  {
    assert file[a..b] + file[b..c] == file[a..c];
  }

  class Work {
    var index: Index
    var identity: string
    var name: string
    var head: seq<byte>
    var generation: Text
    const parse: Parser

    ghost predicate Valid()
      reads this, index
    {
      index.parse == parse && index.Valid()
    }

    constructor (parse: Parser, generation: Text)
      ensures Valid() && fresh(index) && this.parse == parse && this.generation == generation
      ensures index.base == 0 && index.stream == [] && index.nextRead == 0
      ensures identity == "" && name == "" && head == []
    {
      hide Index.Valid;
      this.parse, this.generation := parse, generation;
      identity, name, head := "", "", [];
      index := new Index(parse, 0);
      new;
      NextRead(index);
    }

    /** Whether the file is taken not to be the one that was indexed so far. */
    predicate Replaced(found: Found)
      reads this, index
    {
      || identity != found.identity || name != found.name
      || |found.content| < index.nextRead || !SharedPrefix(head, found.Head())
    }

    /** Where reading goes on. */
    function Resume(found: Found): nat
      reads this, index
    {
      if Replaced(found) then Floor(|found.content|) else index.nextRead
    }

    /** What stays known of the bytes read so far. */
    ghost function Known(found: Found): seq<byte>
      reads this, index
    {
      if Replaced(found) then [] else index.stream
    }

    /** The file was seen to be replaced, or still holds everything indexed before. */
    ghost predicate Sound(found: Found)
      reads this, index
    {
      Replaced(found) || Agrees(index, found.content)
    }

    /** Indexes the next batch, from the start of the window if the file was replaced; tells
        whether more is left. The index then covers the file exactly under `Sound`. */
    method Refresh(found: Found, newGeneration: Text) returns (building: bool)
      requires Valid()
      modifies this, index
      ensures Valid() && building == (index.nextRead < |found.content|)
      ensures identity == found.identity && name == found.name && head == found.Head() && !Replaced(found)
      ensures if old(Replaced(found))
              then fresh(index) && generation == newGeneration && index.base == Floor(|found.content|)
              else index == old(index) && generation == old(generation) && index.base == old(index.base)
      ensures index.nextRead == Upto(old(Resume(found)), |found.content|)
      ensures index.stream == Extended(old(Known(found)), found.content, old(Resume(found)), index.nextRead)
      ensures Covering(index, found.content) <==> old(Sound(found))
    {
      hide Index.Valid;
      if Replaced(found) {
        identity, name, generation := found.identity, found.name, newGeneration;
        index := new Index(parse, Floor(|found.content|));
        NextRead(index);
      }
      head := found.Head();
      ReadOn(index, found.content);
      building := index.nextRead < |found.content|;
    }

    /** Refreshing while the file stays as it is ends with all of it read, and covered
        under the same condition. */
    method CatchUp(found: Found, newGeneration: Text)
      requires Valid()
      modifies this, index
      ensures Valid() && index.nextRead == |found.content| && !Replaced(found)
      ensures if old(Replaced(found)) then fresh(index) && index.base == Floor(|found.content|)
              else index == old(index) && index.base == old(index.base)
      ensures index.stream == Extended(old(Known(found)), found.content, old(Resume(found)), |found.content|)
      ensures Covering(index, found.content) <==> old(Sound(found))
    {
      hide Index.Valid, Agrees, Extended, Replaced, SharedPrefix;
      ghost var known, from := Known(found), Resume(found);
      Forward(found);
      var building := Refresh(found, newGeneration);
      while building
        invariant Valid() && building == (index.nextRead < |found.content|) && !Replaced(found)
        invariant from <= index.nextRead <= |found.content|
        invariant if old(Replaced(found)) then fresh(index) && index.base == Floor(|found.content|)
                  else index == old(index) && index.base == old(index.base)
        invariant index.stream == Extended(known, found.content, from, index.nextRead)
        invariant Covering(index, found.content) <==> old(Sound(found))
        decreases |found.content| - index.nextRead
      {
        ghost var next := index.nextRead;
        CoveredAgrees(index, found.content);
        building := Refresh(found, newGeneration);
        ExtendedTwice(known, found.content, from, next, index.nextRead);
      }
    }

    lemma Forward(found: Found)
      ensures Resume(found) <= |found.content|
    {
    }
  }

  lemma CoveredAgrees(index: Index, file: seq<byte>)
    requires index.Valid()
    ensures Covering(index, file) <==> Agrees(index, file)
  {
    hide Index.Valid;
  }

  /** A file that only grew is covered. */
  lemma GrownAgrees(index: Index, seen: seq<byte>, file: seq<byte>)
    requires Agrees(index, seen) && seen <= file
    ensures Agrees(index, file)
  {
    assert file[..|seen|] == seen;
  }

  /** A file rewritten in place past its first bytes is not noticed. */
  method RewriteUnnoticed(parse: Parser, generation: Text, found: Found, rewritten: Found, newGeneration: Text)
      returns (work: Work)
    requires found.identity == rewritten.identity && found.name == rewritten.name && found.Head() == rewritten.Head()
    requires |found.content| == |rewritten.content| <= MAX_WINDOW && found.content != rewritten.content
    ensures fresh(work) && work.Valid() && work.index.stream == found.content
    ensures !Covering(work.index, rewritten.content)
  {
    hide Index.Valid;
    work := new Work(parse, generation);
    work.CatchUp(found, generation);
    work.CatchUp(rewritten, newGeneration);
  }
}
