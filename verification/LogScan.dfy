/**
 Filtered page scans over the index: `Scan` walks a posting list or the entries, at most
 `MAX_SCAN` candidates and one page of results at a time. `Hits`, a plain filter over the
 entries in file order, is the reference.
 */
module LogScan {
  import opened Prelude
  import opened LineStream
  import opened LogIndex

  /** What a scan may look at. */
  datatype View = View(entries: seq<Entry>, catalog: Catalog, committed: nat) {
    function Start(): nat {
      if entries == [] then committed else entries[0].start
    }
  }

  datatype Filter = Filter(levels: seq<Level>, target: Option<Text>, fromMs: Option<int>, toMs: Option<int>)

  datatype Direction = Latest | Before | After

  /** `boundary` is where the next request in the same direction continues. */
  datatype Page = Page(entries: seq<Entry>, boundary: nat, more: bool)

  ghost predicate Ordered(es: seq<Entry>) {
    && (forall i | 0 <= i < |es| :: es[i].start < es[i].end)
    && (forall i, j | 0 <= i < j < |es| :: es[i].end <= es[j].start)
  }

  ghost predicate Searchable(v: View) {
    && Indexed(v.entries, v.catalog)
    && Ordered(v.entries)
    && (forall i | 0 <= i < |v.entries| :: v.entries[i].end <= v.committed)
  }

  ghost predicate Ascending(lines: seq<Line>, bound: nat) {
    && (forall i | 0 <= i < |lines| :: lines[i].start < lines[i].end <= bound)
    && (forall i, j | 0 <= i < j < |lines| :: lines[i].end <= lines[j].start)
  }

  lemma DescribedAreOrdered(parse: Parser, es: seq<Entry>, pool: seq<Text>, lines: seq<Line>, bound: nat)
    requires DescribeAll(parse, es, pool, lines) && Ascending(lines, bound)
    ensures Ordered(es) && forall i | 0 <= i < |es| :: es[i].end <= bound
  {
    forall i | 0 <= i < |es| ensures es[i].start == lines[i].start && es[i].end == lines[i].end {
      assert Describes(parse, es[i], pool, lines[i]);
    }
  }

  lemma RetainedAscend(base: nat, s: seq<byte>)
    ensures Ascending(Retained(base, s), base + LineStart(s))
  {
    hide Lines, LineStart, Excess;
    LinesOrdered(base, s);
  }

  /** A valid index is searchable. */
  lemma IndexIsSearchable(index: Index)
    requires index.Valid()
    ensures Searchable(View(index.entries, index.catalog, index.committed))
  {
    hide Indexed, DescribeAll, Kept, Tally, LineStart, Lines, Starts, Excess, Floor, Retained, Ascending, Ordered;
    RetainedAscend(index.base, index.stream);
    DescribedAreOrdered(index.parse, index.entries, index.catalog.pool, Retained(index.base, index.stream),
                        index.committed);
  }

  predicate Matches(f: Filter, e: Entry, pool: seq<Text>) {
    && (f.levels == [] || e.level in f.levels)
    && (f.target.None? || (e.target < |pool| && pool[e.target] == f.target.value))
    && (f.fromMs.None? || (e.timestamp.Some? && f.fromMs.value <= e.timestamp.value))
    && (f.toMs.None? || (e.timestamp.Some? && e.timestamp.value < f.toMs.value))
  }

  /** `key` is the symbol of the target asked for, if one is. */
  predicate IsKey(pool: seq<Text>, f: Filter, key: Option<nat>) {
    if f.target.Some? then key.Some? && key == Find(pool, f.target.value) else key.None?
  }

  /** The same test as `Matches`, on symbols instead of texts. */
  predicate Chosen(f: Filter, key: Option<nat>, e: Entry) {
    && (f.levels == [] || e.level in f.levels)
    && (key.None? || key.value == e.target)
    && (f.fromMs.None? || (e.timestamp.Some? && f.fromMs.value <= e.timestamp.value))
    && (f.toMs.None? || (e.timestamp.Some? && e.timestamp.value < f.toMs.value))
  }

  /** As the pool holds each text once, equal symbols are equal texts. */
  lemma ChosenIffMatches(v: View, f: Filter, key: Option<nat>, i: nat)
    requires Searchable(v) && IsKey(v.catalog.pool, f, key) && i < |v.entries|
    ensures Chosen(f, key, v.entries[i]) <==> Matches(f, v.entries[i], v.catalog.pool)
  {
    hide Find;
    IndexedShape(v.entries, v.catalog);
  }

  /** The sequential reference: every matching entry, in file order. */
  function Hits(f: Filter, es: seq<Entry>, pool: seq<Text>): (r: seq<Entry>)
    ensures |r| <= |es|
  {
    if es == [] then []
    else
      var e := es[|es| - 1];
      Hits(f, es[..|es| - 1], pool) + (if Matches(f, e, pool) then [e] else [])
  }

  /** How many entries start before `b`. */
  ghost function Split(es: seq<Entry>, b: nat): (k: nat)
    ensures k <= |es|
  {
    if es == [] then 0
    else if es[|es| - 1].start < b then |es|
    else Split(es[..|es| - 1], b)
  }

  /** The entries on the far side of `b` in scan direction. */
  ghost function Beyond(es: seq<Entry>, b: nat, reverse: bool): seq<Entry> {
    if reverse then es[..Split(es, b)] else es[Split(es, b)..]
  }

  // ---------- Facts about Hits, Split and posting lists ----------

  lemma {:induction false} HitsConcat(f: Filter, a: seq<Entry>, b: seq<Entry>, pool: seq<Text>)
    ensures Hits(f, a + b, pool) == Hits(f, a, pool) + Hits(f, b, pool)
  {
    if b == [] {
      assert a + b == a;
    } else {
      assert (a + b)[..|a + b| - 1] == a + b[..|b| - 1];
      HitsConcat(f, a, b[..|b| - 1], pool);
    }
  }

  lemma {:induction false} NoHits(f: Filter, es: seq<Entry>, pool: seq<Text>)
    requires forall i | 0 <= i < |es| :: !Matches(f, es[i], pool)
    ensures Hits(f, es, pool) == []
  {
    if es != [] {
      NoHits(f, es[..|es| - 1], pool);
    }
  }

  lemma {:induction false} SplitMeaning(es: seq<Entry>, b: nat)
    requires Ordered(es)
    ensures forall i | 0 <= i < |es| :: i < Split(es, b) <==> es[i].start < b
  {
    if es != [] && es[|es| - 1].start >= b {
      SplitMeaning(es[..|es| - 1], b);
      assert forall i | 0 <= i < |es| - 1 :: es[..|es| - 1][i] == es[i];
    }
  }

  /** Every posting is the start of an entry it should list. */
  lemma {:induction false} PostingSound(es: seq<Entry>, sel: Selector, k: nat) returns (i: nat)
    requires k < |Posting(es, sel)|
    ensures i < |es| && Picks(sel, es[i]) && es[i].start == Posting(es, sel)[k]
  {
    var n := |es| - 1;
    if k < |Posting(es[..n], sel)| {
      i := PostingSound(es[..n], sel, k);
    } else {
      i := n;
    }
  }

  /** Every entry it should list has a posting. */
  lemma {:induction false} PostingComplete(es: seq<Entry>, sel: Selector, i: nat)
    requires i < |es| && Picks(sel, es[i])
    ensures es[i].start in Posting(es, sel)
  {
    if i < |es| - 1 {
      PostingComplete(es[..|es| - 1], sel, i);
    }
  }

  lemma {:induction false} PostingSorted(es: seq<Entry>, sel: Selector)
    requires Ordered(es)
    ensures Sorted(Posting(es, sel))
  {
    if es != [] {
      var n := |es| - 1;
      var shorter := Posting(es[..n], sel);
      PostingSorted(es[..n], sel);
      forall k | 0 <= k < |shorter| ensures shorter[k] < es[n].start {
        var i := PostingSound(es[..n], sel, k);
        assert es[i].end <= es[n].start;
      }
    }
  }

  lemma PostingResolvable(es: seq<Entry>, sel: Selector)
    ensures forall x | x in Posting(es, sel) :: x in EntryStarts(es)
  {
    forall x | x in Posting(es, sel) ensures x in EntryStarts(es) {
      var k :| 0 <= k < |Posting(es, sel)| && Posting(es, sel)[k] == x;
      var i := PostingSound(es, sel, k);
      assert EntryStarts(es)[i] == x;
    }
  }

  // ---------- The scan ----------

  /** The standard library's partition point for `key < bound`. */
  method PartitionPoint(keys: seq<nat>, bound: nat) returns (k: nat)
    requires Sorted(keys)
    ensures k <= |keys|
    ensures forall i | 0 <= i < |keys| :: i < k <==> keys[i] < bound
  {
    k := 0;
    var hi := |keys|;
    while k < hi
      invariant k <= hi <= |keys|
      invariant forall i | 0 <= i < k :: keys[i] < bound
      invariant forall i | hi <= i < |keys| :: bound <= keys[i]
    {
      var mid := (k + hi) / 2;
      if keys[mid] < bound {
        k := mid + 1;
      } else {
        hi := mid;
      }
    }
  }

  /** The standard library's binary search, for a key that is present. */
  method BinarySearch(keys: seq<nat>, key: nat) returns (i: nat)
    requires Sorted(keys) && key in keys
    ensures i < |keys| && keys[i] == key
  {
    i := PartitionPoint(keys, key);
    ghost var j :| 0 <= j < |keys| && keys[j] == key;
    assert i <= j && keys[i] <= keys[j];
  }

  ghost predicate Monotone(ps: seq<nat>, reverse: bool) {
    forall i, j | 0 <= i < j < |ps| :: if reverse then ps[j] < ps[i] else ps[i] < ps[j]
  }

  /** `ps` visits, in scan order, positions beyond the split, and none that matches is missed. */
  ghost predicate Covers(ps: seq<nat>, f: Filter, v: View, split: nat, reverse: bool) {
    && Monotone(ps, reverse)
    && (forall i | 0 <= i < |ps| :: ps[i] < |v.entries| && (if reverse then ps[i] < split else split <= ps[i]))
    && (forall p | 0 <= p < |v.entries| && Matches(f, v.entries[p], v.catalog.pool)
                   && (if reverse then p < split else split <= p) :: p in ps)
  }

  /** Resolves the posting ids on one side of the boundary to positions. */
  method Resolve(ids: seq<nat>, starts: seq<nat>, reverse: bool) returns (ps: seq<nat>)
    requires Sorted(starts) && Sorted(ids)
    requires forall x | x in ids :: x in starts
    ensures |ps| == |ids|
    ensures forall i | 0 <= i < |ps| :: ps[i] < |starts|
    ensures forall i | 0 <= i < |ps| :: starts[ps[i]] == ids[if reverse then |ids| - 1 - i else i]
    ensures Monotone(ps, reverse)
  {
    ps := [];
    for i := 0 to |ids|
      invariant |ps| == i
      invariant forall j | 0 <= j < i :: ps[j] < |starts|
      invariant forall j | 0 <= j < i :: starts[ps[j]] == ids[if reverse then |ids| - 1 - j else j]
      invariant Monotone(ps, reverse)
    {
      var id := ids[if reverse then |ids| - 1 - i else i];
      var p := BinarySearch(starts, id);
      ps := ps + [p];
    }
  }

  /** The candidate positions for one scan: the shorter applicable posting list, or every
      entry, on the far side of the boundary. */
  method Candidates(v: View, f: Filter, key: Option<nat>, boundary: nat, reverse: bool) returns (ps: seq<nat>)
    requires Searchable(v) && IsKey(v.catalog.pool, f, key)
    ensures Covers(ps, f, v, Split(v.entries, boundary), reverse)
  {
    hide Posting, Matches, Distinct, Split;
    var byTarget: Option<seq<nat>> :=
      if key.Some? && key.value in v.catalog.postings then Some(v.catalog.postings[key.value]) else None;
    var byLevel: Option<seq<nat>> :=
      if |f.levels| == 1 then Some(v.catalog.levels[Ordinal(f.levels[0])]) else None;
    if byTarget.Some? && (byLevel.None? || |byTarget.value| < |byLevel.value|) {
      TargetPostingSuffices(v, f, key.value);
      ps := FromPosting(v, f, byTarget.value, ByTarget(key.value), boundary, reverse);
    } else if byLevel.Some? {
      LevelPostingSuffices(v, f);
      ps := FromPosting(v, f, byLevel.value, ByLevel(f.levels[0]), boundary, reverse);
    } else {
      var split := PartitionPoint(EntryStarts(v.entries), boundary);
      SplitUnique(v.entries, boundary, split);
      ps := Side(|v.entries|, split, reverse);
    }
  }

  /** Every position on one side of `split`, in scan order. */
  function Side(n: nat, split: nat, reverse: bool): (ps: seq<nat>)
    requires split <= n
    ensures Monotone(ps, reverse)
    ensures forall i | 0 <= i < |ps| :: ps[i] < n && (if reverse then ps[i] < split else split <= ps[i])
    ensures forall p | 0 <= p < n && (if reverse then p < split else split <= p) :: p in ps
  {
    var ps := if reverse then seq(split, i requires 0 <= i < split => split - 1 - i)
              else seq(n - split, i requires 0 <= i < n - split => split + i);
    assert forall p {:trigger p in ps} | 0 <= p < n && (if reverse then p < split else split <= p) ::
      ps[if reverse then split - 1 - p else p - split] == p;
    ps
  }

  lemma SplitUnique(es: seq<Entry>, b: nat, k: nat)
    requires Ordered(es) && k <= |es|
    requires forall i | 0 <= i < |es| :: i < k <==> EntryStarts(es)[i] < b
    ensures k == Split(es, b)
  {
    SplitMeaning(es, b);
    var n := Split(es, b);
    if k < |es| {
      assert EntryStarts(es)[k] == es[k].start;
    }
    if n < |es| {
      assert EntryStarts(es)[n] == es[n].start;
    }
  }

  lemma TargetPostingSuffices(v: View, f: Filter, key: nat)
    requires Searchable(v) && f.target.Some? && Find(v.catalog.pool, f.target.value) == Some(key)
    ensures forall e | e in v.entries && Matches(f, e, v.catalog.pool) :: Picks(ByTarget(key), e)
  {
  }

  lemma LevelPostingSuffices(v: View, f: Filter)
    requires |f.levels| == 1
    ensures forall e | e in v.entries && Matches(f, e, v.catalog.pool) :: Picks(ByLevel(f.levels[0]), e)
  {
  }

  method FromPosting(v: View, f: Filter, posting: seq<nat>, sel: Selector, boundary: nat, reverse: bool)
      returns (ps: seq<nat>)
    requires Searchable(v) && posting == Posting(v.entries, sel)
    requires forall e | e in v.entries && Matches(f, e, v.catalog.pool) :: Picks(sel, e)
    ensures Covers(ps, f, v, Split(v.entries, boundary), reverse)
  {
    hide Posting, Matches, Indexed, Find, Covers, Monotone;
    var starts := EntryStarts(v.entries);
    PostingSorted(v.entries, sel);
    PostingResolvable(v.entries, sel);
    var split := PartitionPoint(posting, boundary);
    var ids := if reverse then posting[..split] else posting[split..];
    ps := Resolve(ids, starts, reverse);
    ResolvedCovers(v, f, posting, sel, boundary, reverse, split, ids, ps);
  }

  lemma ResolvedCovers(v: View, f: Filter, posting: seq<nat>, sel: Selector, boundary: nat, reverse: bool, split: nat,
                       ids: seq<nat>, ps: seq<nat>)
    requires Ordered(v.entries) && posting == Posting(v.entries, sel)
    requires forall e | e in v.entries && Matches(f, e, v.catalog.pool) :: Picks(sel, e)
    requires split <= |posting| && ids == (if reverse then posting[..split] else posting[split..])
    requires forall k | 0 <= k < |posting| :: k < split <==> posting[k] < boundary
    requires |ps| == |ids| && Monotone(ps, reverse)
    requires forall i | 0 <= i < |ps| ::
      ps[i] < |v.entries| && v.entries[ps[i]].start == ids[if reverse then |ids| - 1 - i else i]
    ensures Covers(ps, f, v, Split(v.entries, boundary), reverse)
  {
    hide Posting, Matches, Monotone;
    SplitMeaning(v.entries, boundary);
    forall i | 0 <= i < |ps|
      ensures if reverse then ps[i] < Split(v.entries, boundary) else Split(v.entries, boundary) <= ps[i]
    {
      var k := if reverse then |ids| - 1 - i else i;
      assert ids[k] == posting[if reverse then k else split + k];
    }
    forall p | 0 <= p < |v.entries| && Matches(f, v.entries[p], v.catalog.pool)
               && (if reverse then p < Split(v.entries, boundary) else Split(v.entries, boundary) <= p)
      ensures p in ps
    {
      PostingComplete(v.entries, sel, p);
      var k :| 0 <= k < |posting| && posting[k] == v.entries[p].start;
      var i := if reverse then |ids| - 1 - k else k - split;
      assert ids[if reverse then k else k - split] == v.entries[p].start;
      SameStart(v.entries, ps[i], p);
    }
  }

  lemma SameStart(es: seq<Entry>, i: nat, j: nat)
    requires Ordered(es) && i < |es| && j < |es| && es[i].start == es[j].start
    ensures i == j
  {
  }

  /** The entries between the boundary and the last position looked at. */
  ghost function Done(es: seq<Entry>, split: nat, next: nat, reverse: bool): seq<Entry>
    requires split <= |es| && next <= |es| && (if reverse then next <= split else split <= next)
  {
    if reverse then es[next..split] else es[split..next]
  }

  ghost function Next(ps: seq<nat>, c: nat, split: nat, reverse: bool): int
    requires c <= |ps|
  {
    if c == 0 then split else if reverse then ps[c - 1] else ps[c - 1] + 1
  }

  /** What has been collected, in file order. */
  ghost function InOrder(out: seq<Entry>, reverse: bool): seq<Entry> {
    if reverse then Reversed(out) else out
  }

  /** Between two consecutive candidates, and after the last one, nothing matches. */
  lemma GapHasNoHits(ps: seq<nat>, f: Filter, v: View, split: nat, reverse: bool, c: nat, p: nat)
    requires Covers(ps, f, v, split, reverse) && c <= |ps|
    requires if reverse then p < Next(ps, c, split, reverse) else Next(ps, c, split, reverse) <= p
    requires c < |ps| ==> if reverse then ps[c] < p else p < ps[c]
    requires p < |v.entries|
    ensures !Matches(f, v.entries[p], v.catalog.pool)
  {
    hide Matches;
    assert c > 0 ==> if reverse then ps[c - 1] < split else split <= ps[c - 1];
    forall d | 0 <= d < |ps| ensures ps[d] != p {
      assert d < c - 1 ==> if reverse then ps[c - 1] < ps[d] else ps[d] < ps[c - 1];
      assert c < d ==> if reverse then ps[d] < ps[c] else ps[c] < ps[d];
    }
  }

  lemma HitsAcross(f: Filter, es: seq<Entry>, pool: seq<Text>, a: int, b: int, c: int)
    requires 0 <= a <= b <= c <= |es|
    ensures Hits(f, es[a..c], pool) == Hits(f, es[a..b], pool) + Hits(f, es[b..c], pool)
  {
    HitsConcat(f, es[a..b], es[b..c], pool);
    assert es[a..b] + es[b..c] == es[a..c];
  }

  /** A candidate after a run without matches. */
  lemma HitsAfterGap(f: Filter, es: seq<Entry>, pool: seq<Text>, a: int, n: int, p: int)
    requires 0 <= a <= n <= p < |es|
    requires forall i | n <= i < p :: !Matches(f, es[i], pool)
    ensures Hits(f, es[a..p + 1], pool) == Hits(f, es[a..n], pool) + if Matches(f, es[p], pool) then [es[p]] else []
  {
    hide Matches, Hits;
    HitsAcross(f, es, pool, a, p, p + 1);
    HitsAcross(f, es, pool, a, n, p);
    NoHits(f, es[n..p], pool);
    OneHit(f, es[p], pool);
    assert es[p..p + 1] == [es[p]];
  }

  /** A candidate before a run without matches. */
  lemma HitsBeforeGap(f: Filter, es: seq<Entry>, pool: seq<Text>, p: int, n: int, b: int)
    requires 0 <= p < n <= b <= |es|
    requires forall i | p < i < n :: !Matches(f, es[i], pool)
    ensures Hits(f, es[p..b], pool) == (if Matches(f, es[p], pool) then [es[p]] else []) + Hits(f, es[n..b], pool)
  {
    hide Matches, Hits;
    HitsAcross(f, es, pool, p, p + 1, b);
    HitsAcross(f, es, pool, p + 1, n, b);
    NoHits(f, es[p + 1..n], pool);
    OneHit(f, es[p], pool);
    assert es[p..p + 1] == [es[p]];
  }

  /** Looking at the next candidate extends what is done by that entry alone. */
  lemma Advance(ps: seq<nat>, f: Filter, v: View, split: nat, reverse: bool, c: nat)
    requires Covers(ps, f, v, split, reverse) && c < |ps| && split <= |v.entries|
    ensures var n, n' := Next(ps, c, split, reverse), Next(ps, c + 1, split, reverse);
      && (if reverse then 0 <= n' < n <= split else split <= n < n' <= |v.entries|)
      && var done := Hits(f, Done(v.entries, split, n, reverse), v.catalog.pool);
         var hit := if Matches(f, v.entries[ps[c]], v.catalog.pool) then [v.entries[ps[c]]] else [];
         Hits(f, Done(v.entries, split, n', reverse), v.catalog.pool) == if reverse then hit + done else done + hit
  {
    hide Matches, Hits;
    var p, n := ps[c], Next(ps, c, split, reverse);
    assert c > 0 ==> if reverse then ps[c] < ps[c - 1] < split else split <= ps[c - 1] < ps[c];
    forall i | if reverse then p < i < n else n <= i < p
      ensures !Matches(f, v.entries[i], v.catalog.pool)
    {
      GapHasNoHits(ps, f, v, split, reverse, c, i);
    }
    if reverse {
      HitsBeforeGap(f, v.entries, v.catalog.pool, p, n, split);
    } else {
      HitsAfterGap(f, v.entries, v.catalog.pool, split, n, p);
    }
  }

  lemma OneHit(f: Filter, e: Entry, pool: seq<Text>)
    ensures Hits(f, [e], pool) == if Matches(f, e, pool) then [e] else []
  {
    assert [e][..0] == [];
  }

  /** After the last candidate everything beyond the boundary has been accounted for. */
  lemma Exhausted(ps: seq<nat>, f: Filter, v: View, split: nat, reverse: bool)
    requires Covers(ps, f, v, split, reverse) && split <= |v.entries|
    ensures var n := Next(ps, |ps|, split, reverse);
      && (if reverse then 0 <= n <= split else split <= n <= |v.entries|)
      && Hits(f, Done(v.entries, split, n, reverse), v.catalog.pool)
         == Hits(f, if reverse then v.entries[..split] else v.entries[split..], v.catalog.pool)
  {
    hide Matches, Hits;
    var es, pool, c := v.entries, v.catalog.pool, |ps|;
    var n := Next(ps, c, split, reverse);
    assert c > 0 ==> if reverse then ps[c - 1] < split else split <= ps[c - 1];
    forall i | if reverse then 0 <= i < n else n <= i < |es|
      ensures !Matches(f, es[i], pool)
    {
      GapHasNoHits(ps, f, v, split, reverse, c, i);
    }
    if reverse {
      NoHits(f, es[0..n], pool);
      HitsAcross(f, es, pool, 0, n, split);
      assert es[..split] == es[0..split];
    } else {
      NoHits(f, es[n..|es|], pool);
      HitsAcross(f, es, pool, split, n, |es|);
      assert es[split..] == es[split..|es|];
    }
  }

  lemma SplitAt(es: seq<Entry>, p: nat)
    requires Ordered(es) && p < |es|
    ensures Split(es, es[p].start) == p && Split(es, es[p].end) == p + 1
  {
    SplitMeaning(es, es[p].start);
    SplitMeaning(es, es[p].end);
    assert p + 1 < |es| ==> es[p].end <= es[p + 1].start;
    var k, k' := Split(es, es[p].start), Split(es, es[p].end);
    assert k < |es| ==> !(es[k].start < es[p].start);
  }

  /** The boundary after `c` candidates lies beyond the one the scan started from, and short
      of the end while candidates are left. */
  lemma Advances(ps: seq<nat>, f: Filter, v: View, b: nat, reverse: bool, c: nat)
    requires Searchable(v) && Covers(ps, f, v, Split(v.entries, b), reverse) && 0 < c <= |ps|
    ensures var es, split, last := v.entries, Split(v.entries, b), v.entries[ps[c - 1]];
      var n := Next(ps, c, split, reverse);
      var b' := if reverse then last.start else last.end;
      && (if reverse then 0 <= n < split && b' < b else split < n <= |es| && b < b')
      && Split(es, b') == n
      && (c < |ps| ==> if reverse then 0 < n else n < |es|)
  {
    hide Matches, Indexed;
    var es, last := v.entries, v.entries[ps[c - 1]];
    SplitMeaning(es, b);
    SplitMeaning(es, if reverse then last.start else last.end);
    SplitAt(es, ps[c - 1]);
    assert c < |ps| ==> if reverse then ps[c] < ps[c - 1] else ps[c - 1] < ps[c] < |es|;
  }

  /** Stopping after `c` candidates: the page and the entries beyond its boundary together
      are the entries beyond the boundary it started from. */
  lemma Continues(ps: seq<nat>, f: Filter, v: View, b: nat, reverse: bool, c: nat)
    requires Searchable(v) && Covers(ps, f, v, Split(v.entries, b), reverse) && 0 < c <= |ps|
    ensures var es, split, last := v.entries, Split(v.entries, b), v.entries[ps[c - 1]];
      var n := Next(ps, c, split, reverse);
      var b' := if reverse then last.start else last.end;
      && (if reverse then 0 <= n < split && b' < b else split < n <= |es| && b < b')
      && Split(es, b') == n
      && var done := Hits(f, Done(es, split, n, reverse), v.catalog.pool);
         var rest := Hits(f, Beyond(es, b', reverse), v.catalog.pool);
         Hits(f, Beyond(es, b, reverse), v.catalog.pool) == if reverse then rest + done else done + rest
    ensures var last := v.entries[ps[c - 1]];
      c < |ps| ==> Beyond(v.entries, if reverse then last.start else last.end, reverse) != []
  {
    hide Matches, Hits, Indexed, Covers, Ordered;
    Advances(ps, f, v, b, reverse, c);
    var es, split := v.entries, Split(v.entries, b);
    var n := Next(ps, c, split, reverse);
    if reverse {
      HitsAcross(f, es, v.catalog.pool, 0, n, split);
      assert es[..split] == es[0..split] && es[..n] == es[0..n];
    } else {
      HitsAcross(f, es, v.catalog.pool, split, n, |es|);
      assert es[split..] == es[split..|es|] && es[n..] == es[n..|es|];
    }
  }

  function Clamp(limit: nat): nat {
    if limit < 1 then 1 else if MAX_PAGE < limit then MAX_PAGE else limit
  }

  /** The end of the scan in the given direction. */
  function Edge(v: View, reverse: bool): nat {
    if reverse then v.Start() else v.committed
  }

  /** One page is correct: it is a run of the reference list starting at the boundary, what
      lies beyond its own boundary is the rest of that list, and a page that promises more
      has moved and has left entries to look at. */
  ghost predicate PageOk(v: View, f: Filter, b: nat, reverse: bool, limit: nat, page: Page) {
    var es, pool := v.entries, v.catalog.pool;
    var rest := Hits(f, Beyond(es, page.boundary, reverse), pool);
    && Hits(f, Beyond(es, b, reverse), pool) == (if reverse then rest + page.entries else page.entries + rest)
    && |page.entries| <= Clamp(limit)
    && (page.more ==>
          && (if reverse then page.boundary < b else b < page.boundary)
          && v.Start() <= page.boundary <= v.committed
          && 0 < |Beyond(es, page.boundary, reverse)| < |Beyond(es, b, reverse)|
          && (reverse ==> page.boundary in EntryStarts(es)))
    && (!page.more ==> page.boundary == Edge(v, reverse) && Beyond(es, page.boundary, reverse) == [])
  }

  lemma NothingBeyondEdge(v: View, reverse: bool)
    requires Searchable(v)
    ensures Beyond(v.entries, Edge(v, reverse), reverse) == []
  {
    SplitMeaning(v.entries, Edge(v, reverse));
    var k := Split(v.entries, Edge(v, reverse));
    if v.entries != [] {
      assert k < |v.entries| ==> v.entries[k].start < v.entries[k].end;
    }
  }

  /** Where a request without a cursor starts. */
  function Origin(v: View, from: Option<nat>, reverse: bool): nat {
    if from.Some? then from.value else if reverse then v.committed else v.Start()
  }

  /** Scan bounded candidates in file order. */
  method Scan(v: View, f: Filter, direction: Direction, from: Option<nat>, limit: nat) returns (page: Page)
    requires Searchable(v)
    ensures PageOk(v, f, Origin(v, from, direction != After), direction != After, limit, page)
  {
    hide Hits, Covers, Searchable, Split, Reversed, Matches, EntryStarts;
    var reverse := direction != After;
    var boundary := Origin(v, from, reverse);
    NothingBeyondEdge(v, reverse);
    var key := if f.target.Some? then Find(v.catalog.pool, f.target.value) else None;
    if f.target.Some? && key.None? {
      UnknownTarget(f, v, boundary, reverse);
      return Page([], Edge(v, reverse), false);
    }
    var ps := Candidates(v, f, key, boundary, reverse);
    var out, last, more, scanned := Walk(v, f, key, ps, boundary, reverse, limit);
    ReversedTwice(out);
    if more {
      Continues(ps, f, v, boundary, reverse, scanned);
      CandidateInside(ps, f, v, boundary, reverse, scanned - 1);
    } else {
      Exhausted(ps, f, v, Split(v.entries, boundary), reverse);
      last := Edge(v, reverse);
    }
    page := Page(if reverse then Reversed(out) else out, last, more);
  }

  lemma UnknownTarget(f: Filter, v: View, b: nat, reverse: bool)
    requires f.target.Some? && Find(v.catalog.pool, f.target.value).None?
    ensures Hits(f, Beyond(v.entries, b, reverse), v.catalog.pool) == []
  {
    NoHits(f, Beyond(v.entries, b, reverse), v.catalog.pool);
  }

  lemma CandidateInside(ps: seq<nat>, f: Filter, v: View, b: nat, reverse: bool, c: nat)
    requires Searchable(v) && Covers(ps, f, v, Split(v.entries, b), reverse) && c < |ps|
    ensures var e := v.entries[ps[c]]; v.Start() <= e.start < e.end <= v.committed && e.start in EntryStarts(v.entries)
  {
    hide Indexed;
    assert EntryStarts(v.entries)[ps[c]] == v.entries[ps[c]].start;
    assert ps[c] > 0 ==> v.entries[0].end <= v.entries[ps[c]].start;
  }

  /** `last` is the far edge of the entry at `p`. */
  ghost predicate LastSeen(v: View, p: nat, reverse: bool, last: nat) {
    p < |v.entries| && last == if reverse then v.entries[p].start else v.entries[p].end
  }

  /** After `c` candidates `out` holds the hits among the entries done, in scan order. */
  ghost predicate Collected(v: View, f: Filter, ps: seq<nat>, split: nat, reverse: bool, out: seq<Entry>, c: nat)
    requires c <= |ps|
  {
    var n := Next(ps, c, split, reverse);
    && split <= |v.entries| && (if reverse then 0 <= n <= split else split <= n <= |v.entries|)
    && InOrder(out, reverse) == Hits(f, Done(v.entries, split, n, reverse), v.catalog.pool)
  }

  lemma CollectNone(v: View, f: Filter, ps: seq<nat>, split: nat, reverse: bool)
    requires split <= |v.entries|
    ensures Collected(v, f, ps, split, reverse, [], 0)
  {
    hide Hits;
    NoHits(f, [], v.catalog.pool);
    assert Done(v.entries, split, split, reverse) == [];
  }

  lemma CollectNext(v: View, f: Filter, ps: seq<nat>, split: nat, reverse: bool, out: seq<Entry>, c: nat)
    requires Covers(ps, f, v, split, reverse) && c < |ps| && Collected(v, f, ps, split, reverse, out, c)
    ensures ps[c] < |v.entries| && var e := v.entries[ps[c]];
      Collected(v, f, ps, split, reverse, if Matches(f, e, v.catalog.pool) then out + [e] else out, c + 1)
  {
    hide Hits, Matches, Reversed, Monotone, Next, Done;
    Advance(ps, f, v, split, reverse, c);
    var e, done := v.entries[ps[c]], InOrder(out, reverse);
    ReversedSnoc(out, e);
    assert [] + done == done && done + [] == done;
  }

  /** The loop over the candidates. `scanned` counts those looked at. */
  method Walk(v: View, f: Filter, key: Option<nat>, ps: seq<nat>, boundary: nat, reverse: bool, limit: nat)
      returns (out: seq<Entry>, last: nat, more: bool, scanned: nat)
    requires Searchable(v) && IsKey(v.catalog.pool, f, key) && Covers(ps, f, v, Split(v.entries, boundary), reverse)
    ensures scanned <= |ps| && |out| <= Clamp(limit)
    ensures more ==> 0 < scanned < |ps|
    ensures !more ==> scanned == |ps|
    ensures scanned > 0 ==> LastSeen(v, ps[scanned - 1], reverse, last)
    ensures Collected(v, f, ps, Split(v.entries, boundary), reverse, out, scanned)
  {
    hide Matches, Chosen, IsKey, Searchable, Split, Covers, Collected;
    out, last, more, scanned := [], boundary, false, 0;
    ghost var split := Split(v.entries, boundary);
    CollectNone(v, f, ps, split, reverse);
    while scanned < |ps|
      invariant scanned <= |ps| && |out| <= Clamp(limit) && |out| <= scanned
      invariant scanned > 0 ==> LastSeen(v, ps[scanned - 1], reverse, last)
      invariant Collected(v, f, ps, split, reverse, out, scanned)
    {
      if scanned >= MAX_SCAN || |out| >= Clamp(limit) {
        more := true;
        break;
      }
      CollectNext(v, f, ps, split, reverse, out, scanned);
      var entry := v.entries[ps[scanned]];
      last := if reverse then entry.start else entry.end;
      ChosenIffMatches(v, f, key, ps[scanned]);
      if Chosen(f, key, entry) {
        out := out + [entry];
      }
      scanned := scanned + 1;
    }
  }

  /** Following the boundary until `more` is false visits every hit once, in file order. */
  method Follow(v: View, f: Filter, reverse: bool, from: nat, limit: nat) returns (all: seq<Entry>)
    requires Searchable(v)
    ensures all == Hits(f, Beyond(v.entries, from, reverse), v.catalog.pool)
  {
    hide Hits, Searchable, Beyond;
    all := [];
    var boundary, more := from, true;
    NoHits(f, [], v.catalog.pool);
    assert Hits(f, Beyond(v.entries, from, reverse), v.catalog.pool) + []
        == Hits(f, Beyond(v.entries, from, reverse), v.catalog.pool);
    while more
      invariant var rest := Hits(f, Beyond(v.entries, boundary, reverse), v.catalog.pool);
        Hits(f, Beyond(v.entries, from, reverse), v.catalog.pool) == if reverse then rest + all else all + rest
      invariant !more ==> Beyond(v.entries, boundary, reverse) == []
      decreases more, |Beyond(v.entries, boundary, reverse)|
    {
      var page := Scan(v, f, if reverse then Before else After, Some(boundary), limit);
      all := if reverse then page.entries + all else all + page.entries;
      boundary, more := page.boundary, page.more;
    }
  }
}
