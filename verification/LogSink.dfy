/**
 The rotating archive of log records: numbered files, a size limit per file and a limit
 on the number of files. Any listing, removal, creation, write or flush may fail; what still
 holds then is said by what has failed.
 */
module LogSink {
  import opened Prelude

  function Flatten(records: seq<Text>): Text {
    if records == [] then [] else Flatten(records[..|records| - 1]) + records[|records| - 1]
  }

  lemma FlattenSnoc(records: seq<Text>, r: Text)
    ensures Flatten(records + [r]) == Flatten(records) + r
  {
    assert (records + [r])[..|records|] == records;
  }

  lemma {:induction false} FlattenConcat(a: seq<Text>, b: seq<Text>)
    ensures Flatten(a + b) == Flatten(a) + Flatten(b)
  {
    if b == [] {
      assert a + b == a && Flatten(a) + Flatten(b) == Flatten(a);
    } else {
      var rest, r := b[..|b| - 1], b[|b| - 1];
      FlattenConcat(a, rest);
      assert a + b == a + rest + [r];
      FlattenSnoc(a + rest, r);
      assert Flatten(a) + Flatten(rest) + r == Flatten(a) + (Flatten(rest) + r);
    }
  }

  // ---------- Files in numeric order ----------

  /** The records of all files, oldest file first. */
  ghost function Retained(logs: map<nat, seq<Text>>): seq<Text>
    decreases |logs.Keys|
  {
    if logs == map[] then []
    else
      var k := MaxOf(logs.Keys);
      assert |(logs - {k}).Keys| < |logs.Keys| by {
        assert (logs - {k}).Keys == logs.Keys - {k};
      }
      Retained(logs - {k}) + logs[k]
  }

  lemma RetainedAtTop(logs: map<nat, seq<Text>>, top: nat)
    requires top in logs && forall k | k in logs :: k <= top
    ensures Retained(logs) == Retained(logs - {top}) + logs[top]
  {
    assert MaxOf(logs.Keys) == top;
  }

  lemma AppendAtTop(logs: map<nat, seq<Text>>, top: nat, records: seq<Text>)
    requires top in logs && forall k | k in logs :: k <= top
    ensures Retained(logs[top := logs[top] + records]) == Retained(logs) + records
  {
    hide Retained;
    var next := logs[top := logs[top] + records];
    RetainedAtTop(logs, top);
    RetainedAtTop(next, top);
    assert next - {top} == logs - {top};
    assert Retained(logs - {top}) + (logs[top] + records) == Retained(logs - {top}) + logs[top] + records;
  }

  lemma NewAtTop(logs: map<nat, seq<Text>>, top: nat)
    requires forall k | k in logs :: k < top
    ensures Retained(logs[top := []]) == Retained(logs)
  {
    hide Retained;
    var next := logs[top := []];
    RetainedAtTop(next, top);
    assert next - {top} == logs;
    assert Retained(logs) + [] == Retained(logs);
  }

  /** Files older than every file that stays: their records are a prefix. */
  ghost predicate Oldest(logs: map<nat, seq<Text>>, removed: set<nat>) {
    removed <= logs.Keys && forall r, k | r in removed && k in logs && k !in removed :: r < k
  }

  ghost function Restrict(logs: map<nat, seq<Text>>, seqs: set<nat>): map<nat, seq<Text>> {
    map k | k in logs && k in seqs :: logs[k]
  }

  lemma {:induction false} RemoveOldest(logs: map<nat, seq<Text>>, removed: set<nat>)
    requires Oldest(logs, removed)
    ensures Retained(logs) == Retained(Restrict(logs, removed)) + Retained(logs - removed)
    decreases |logs.Keys|
  {
    hide Retained;
    var rest := logs - removed;
    if rest == map[] {
      EmptyRetained();
      OnlyRemoved(logs, removed);
    } else {
      var top := MaxOf(rest.Keys);
      TopOfAll(logs, removed, top);
      RetainedAtTop(logs, top);
      RetainedAtTop(rest, top);
      WithoutTop(logs, removed, top);
      RemoveOldest(logs - {top}, removed);
      var older := Retained(Restrict(logs, removed));
      assert older + Retained(rest - {top}) + logs[top] == older + (Retained(rest - {top}) + logs[top]);
    }
  }

  lemma OnlyRemoved(logs: map<nat, seq<Text>>, removed: set<nat>)
    requires removed <= logs.Keys && logs - removed == map[]
    ensures Restrict(logs, removed) == logs
  {
    forall k | k in logs ensures k in removed {
      assert k !in logs - removed;
    }
  }

  lemma TopOfAll(logs: map<nat, seq<Text>>, removed: set<nat>, top: nat)
    requires Oldest(logs, removed) && top in logs - removed && forall k | k in logs - removed :: k <= top
    ensures forall k | k in logs :: k <= top
  {
    forall k | k in logs ensures k <= top {
      assert k in removed || k in logs - removed;
    }
  }

  lemma WithoutTop(logs: map<nat, seq<Text>>, removed: set<nat>, top: nat)
    requires Oldest(logs, removed) && top in logs - removed
    ensures Oldest(logs - {top}, removed) && (logs - {top}) - removed == (logs - removed) - {top}
    ensures Restrict(logs - {top}, removed) == Restrict(logs, removed) && |(logs - {top}).Keys| < |logs.Keys|
  {
    assert (logs - {top}).Keys == logs.Keys - {top};
  }

  lemma EmptyRetained()
    ensures Retained(map[]) == []
  {
  }

  // ---------- Pruning ----------

  function Min(a: nat, b: nat): nat {
    if a < b then a else b
  }

  function Unprotected(targets: set<nat>, protect: Option<nat>): set<nat> {
    if protect.Some? then targets - {protect.value} else targets
  }

  /** All but the newest `keep` files. */
  ghost predicate AllButNewest(seqs: set<nat>, targets: set<nat>, keep: nat) {
    && targets <= seqs && |seqs - targets| == Min(keep, |seqs|)
    && forall t, k | t in targets && k in seqs - targets :: t < k
  }

  method PruneTargets(seqs: set<nat>, keep: nat) returns (targets: set<nat>)
    ensures AllButNewest(seqs, targets, keep)
  {
    targets := seqs;
    var kept: set<nat> := {};
    while targets != {} && |kept| < keep
      invariant kept !! targets && kept + targets == seqs && |kept| <= keep
      invariant forall t, k | t in targets && k in kept :: t < k
      decreases targets
    {
      var top := Highest(targets);
      kept, targets := kept + {top}, targets - {top};
    }
    assert seqs - targets == kept;
    assert |seqs| == |kept| + |targets|;
  }

  // ---------- What a run has written ----------

  /** One flush of the buffer. A failed one may leave the first bytes of the buffer behind. */
  datatype Flush = Flush(records: seq<Text>, lost: bool, fragment: Text)

  function Landing(f: Flush): seq<Text> {
    if !f.lost then f.records else if f.fragment == [] then [] else [f.fragment]
  }

  /** Everything handed to the file system, and what of it arrived. */
  function Submitted(flushes: seq<Flush>): seq<Text> {
    if flushes == [] then [] else Submitted(flushes[..|flushes| - 1]) + flushes[|flushes| - 1].records
  }

  function Arrived(flushes: seq<Flush>): seq<Text> {
    if flushes == [] then [] else Arrived(flushes[..|flushes| - 1]) + Landing(flushes[|flushes| - 1])
  }

  ghost predicate FlushOk(f: Flush) {
    f.fragment <= Flatten(f.records)
  }

  ghost predicate FlushesOk(flushes: seq<Flush>, lossless: bool) {
    && (forall i | 0 <= i < |flushes| :: FlushOk(flushes[i]))
    && (lossless <==> forall i | 0 <= i < |flushes| :: !flushes[i].lost)
  }

  lemma FlushSnoc(flushes: seq<Flush>, f: Flush)
    ensures Submitted(flushes + [f]) == Submitted(flushes) + f.records
    ensures Arrived(flushes + [f]) == Arrived(flushes) + Landing(f)
  {
    assert (flushes + [f])[..|flushes|] == flushes;
  }

  lemma FlushesSnoc(flushes: seq<Flush>, lossless: bool, f: Flush)
    requires FlushesOk(flushes, lossless) && FlushOk(f)
    ensures FlushesOk(flushes + [f], lossless && !f.lost)
  {
    hide FlushOk;
    var more := flushes + [f];
    assert more[|flushes|] == f && forall i | 0 <= i < |flushes| :: more[i] == flushes[i];
  }

  /** Without a lost flush everything arrives, whole and in order. */
  lemma {:induction false} LosslessArrives(flushes: seq<Flush>)
    requires FlushesOk(flushes, true)
    ensures Arrived(flushes) == Submitted(flushes)
  {
    hide FlushOk;
    if flushes != [] {
      LosslessArrives(flushes[..|flushes| - 1]);
    }
  }

  // ---------- The writer ----------

  /** A file is past its limit by its last record, and by one more for every rollover that
      failed while it was active. */
  ghost predicate SizeOk(records: seq<Text>, maxBytes: nat, missed: nat) {
    |records| > missed ==> |Flatten(records[..|records| - 1 - missed])| < maxBytes
  }

  ghost predicate FilesOk(files: map<nat, Text>, logs: map<nat, seq<Text>>) {
    logs.Keys == files.Keys && forall k | k in files :: files[k] == Flatten(logs[k])
  }

  /** The files of this run are within their limits. */
  ghost predicate SizesOk(logs: map<nat, seq<Text>>, first: nat, maxBytes: nat, missed: map<nat, nat>) {
    forall k | k in logs && first <= k :: k in missed && SizeOk(logs[k], maxBytes, missed[k])
  }

  /** The files that are left hold what was written to them. */
  ghost predicate Intact(logs: map<nat, seq<Text>>, ever: map<nat, seq<Text>>) {
    logs.Keys <= ever.Keys && forall k | k in logs :: logs[k] == ever[k]
  }

  /** Files, their records, and everything that ever arrived, oldest first. */
  ghost predicate StoreOk(files: map<nat, Text>, logs: map<nat, seq<Text>>, ever: map<nat, seq<Text>>,
                          history: seq<Text>)
  {
    FilesOk(files, logs) && Intact(logs, ever) && Retained(ever) == history
  }

  /** What is gone is older than what is left. */
  ghost predicate TidyOk(logs: map<nat, seq<Text>>, ever: map<nat, seq<Text>>) {
    Oldest(ever, ever.Keys - logs.Keys)
  }

  ghost predicate UpTo(ever: map<nat, seq<Text>>, top: nat) {
    forall k | k in ever :: k <= top
  }

  ghost predicate Part<V>(small: map<nat, V>, big: map<nat, V>) {
    forall k | k in small :: k in big && small[k] == big[k]
  }

  /** The records that can be encoded. */
  function Encoded(batch: seq<Option<Text>>): seq<Text> {
    if batch == [] then []
    else
      var before := Encoded(batch[..|batch| - 1]);
      if batch[|batch| - 1].Some? then before + [batch[|batch| - 1].value] else before
  }

  lemma EncodedSnoc(batch: seq<Option<Text>>, r: Option<Text>)
    ensures Encoded(batch + [r]) == if r.Some? then Encoded(batch) + [r.value] else Encoded(batch)
  {
    assert (batch + [r])[..|batch|] == batch;
  }

  lemma IntactIsRest(logs: map<nat, seq<Text>>, ever: map<nat, seq<Text>>)
    requires Intact(logs, ever)
    ensures ever - (ever.Keys - logs.Keys) == logs
  {
  }

  /** If what is gone is older than what is left, what is left is a suffix of the history. */
  lemma LeftIsSuffix(logs: map<nat, seq<Text>>, ever: map<nat, seq<Text>>)
    requires Intact(logs, ever) && Oldest(ever, ever.Keys - logs.Keys)
    ensures var n := |Retained(ever)| - |Retained(logs)|; n >= 0 && Retained(logs) == Retained(ever)[n..]
  {
    hide Retained, Intact, Oldest;
    IntactIsRest(logs, ever);
    RemoveOldest(ever, ever.Keys - logs.Keys);
  }

  lemma PruneIsOldest(logs: map<nat, seq<Text>>, targets: set<nat>, keep: nat, protect: Option<nat>)
    requires AllButNewest(logs.Keys, targets, keep)
    requires protect.Some? ==> protect.value in logs && forall k | k in logs :: k <= protect.value
    ensures var removed := Unprotected(targets, protect);
      Oldest(logs, removed) && |logs.Keys - removed| <= if protect.Some? && keep == 0 then 1 else keep
  {
    var seqs := logs.Keys;
    if protect.Some? {
      var p := protect.value;
      if p in targets {
        assert seqs - targets == {} by {
          assert forall k | k in seqs - targets :: p < k <= p;
        }
        assert seqs - (targets - {p}) == {p};
      } else {
        assert targets - {p} == targets;
      }
    }
    var removed := Unprotected(targets, protect);
    forall r, k | r in removed && k in logs && k !in removed ensures r < k {
      assert k in seqs - removed && r in logs;
      assert k in seqs - targets || (protect.Some? && k == protect.value);
    }
  }

  /** Pruning the oldest of what is left keeps what is gone older than what is left. */
  lemma StillOldest(logs: map<nat, seq<Text>>, ever: map<nat, seq<Text>>, removed: set<nat>)
    requires Intact(logs, ever) && Oldest(ever, ever.Keys - logs.Keys) && Oldest(logs, removed)
    ensures Oldest(ever, ever.Keys - (logs - removed).Keys)
  {
    var gone, left := ever.Keys - (logs - removed).Keys, (logs - removed).Keys;
    forall r, k | r in gone && k in ever && k !in gone ensures r < k {
      assert k in left && k in logs && k !in removed;
      assert r in ever.Keys - logs.Keys || r in removed;
    }
  }

  lemma FilesShrink(files: map<nat, Text>, logs: map<nat, seq<Text>>, ever: map<nat, seq<Text>>, removed: set<nat>)
    requires FilesOk(files, logs) && Intact(logs, ever)
    ensures FilesOk(files - removed, logs - removed) && Intact(logs - removed, ever)
    ensures |files - removed| == |files.Keys - removed|
  {
    hide Flatten;
    assert (files - removed).Keys == files.Keys - removed;
  }

  /** Removing the targets, the protected file and those that refuse excepted. */
  lemma StorePruned(files: map<nat, Text>, logs: map<nat, seq<Text>>, ever: map<nat, seq<Text>>, history: seq<Text>,
                    targets: set<nat>, keep: nat, protect: Option<nat>, removed: set<nat>)
    requires StoreOk(files, logs, ever, history)
    requires AllButNewest(files.Keys, targets, keep)
    requires protect.Some? ==> protect.value in files && forall k | k in files :: k <= protect.value
    requires removed <= Unprotected(targets, protect)
    ensures StoreOk(files - removed, logs - removed, ever, history) && |files - removed| <= |files|
    ensures protect.Some? ==> protect.value in files - removed
    ensures removed == Unprotected(targets, protect) ==>
      && |files - removed| <= (if protect.Some? && keep == 0 then 1 else keep)
      && (TidyOk(logs, ever) ==> TidyOk(logs - removed, ever))
  {
    hide Oldest, Flatten, AllButNewest, Retained;
    SameKeys(files, logs);
    PruneIsOldest(logs, targets, keep, protect);
    FilesShrink(files, logs, ever, removed);
    SubsetIsSmaller(files.Keys - removed, files.Keys);
    if TidyOk(logs, ever) && Oldest(logs, removed) {
      StillOldest(logs, ever, removed);
    }
  }

  lemma SameKeys(files: map<nat, Text>, logs: map<nat, seq<Text>>)
    requires FilesOk(files, logs)
    ensures logs.Keys == files.Keys && |files.Keys| == |files|
  {
  }

  /** An empty file past all others. */
  lemma StoreCreated(files: map<nat, Text>, logs: map<nat, seq<Text>>, ever: map<nat, seq<Text>>, history: seq<Text>,
                     number: nat)
    requires StoreOk(files, logs, ever, history) && number > 0 && UpTo(ever, number - 1)
    ensures StoreOk(files[number := []], logs[number := []], ever[number := []], history)
    ensures |files[number := []]| == |files| + 1
    ensures TidyOk(logs, ever) ==> TidyOk(logs[number := []], ever[number := []])
  {
    hide Oldest, Flatten, Retained, FilesOk, Intact;
    NewFile(files, logs, ever, number);
    NewAtTop(ever, number);
    if TidyOk(logs, ever) {
      NewIsNewest(logs, ever, number);
    }
  }

  /** What arrived at the end of the active file. */
  lemma StoreGrown(files: map<nat, Text>, logs: map<nat, seq<Text>>, ever: map<nat, seq<Text>>, history: seq<Text>,
                   top: nat, texts: seq<Text>, bytes: Text)
    requires StoreOk(files, logs, ever, history) && top in files && UpTo(ever, top)
    requires bytes == Flatten(texts)
    ensures top in logs && top in ever
    ensures var logs', ever' := logs[top := logs[top] + texts], ever[top := ever[top] + texts];
      && StoreOk(files[top := files[top] + bytes], logs', ever', history + texts)
      && (TidyOk(logs, ever) ==> TidyOk(logs', ever'))
    ensures files[top := files[top] + bytes].Keys == files.Keys && |files[top := files[top] + bytes]| == |files|
  {
    hide Oldest, Flatten, Retained;
    FilesGrow(files, logs, ever, top, texts);
  }

  lemma NewFile(files: map<nat, Text>, logs: map<nat, seq<Text>>, ever: map<nat, seq<Text>>, number: nat)
    requires FilesOk(files, logs) && Intact(logs, ever) && number > 0 && UpTo(ever, number - 1)
    ensures FilesOk(files[number := []], logs[number := []]) && Intact(logs[number := []], ever[number := []])
    ensures |files[number := []]| == |files| + 1
  {
    hide Flatten;
    EmptyFile();
    assert files[number := []].Keys == files.Keys + {number};
  }

  lemma EmptyFile()
    ensures Flatten([]) == []
  {
  }

  lemma NewIsNewest(logs: map<nat, seq<Text>>, ever: map<nat, seq<Text>>, number: nat)
    requires Intact(logs, ever) && Oldest(ever, ever.Keys - logs.Keys) && number > 0 && UpTo(ever, number - 1)
    ensures Oldest(ever[number := []], ever[number := []].Keys - logs[number := []].Keys)
  {
    assert ever[number := []].Keys - logs[number := []].Keys == ever.Keys - logs.Keys;
  }

  /** What arrived goes to the end of the active file. */
  lemma FilesGrow(files: map<nat, Text>, logs: map<nat, seq<Text>>, ever: map<nat, seq<Text>>, top: nat,
                  texts: seq<Text>)
    requires FilesOk(files, logs) && Intact(logs, ever) && top in files && UpTo(ever, top)
    ensures top in logs && top in ever
    ensures FilesOk(files[top := files[top] + Flatten(texts)], logs[top := logs[top] + texts])
    ensures Intact(logs[top := logs[top] + texts], ever[top := ever[top] + texts])
    ensures Retained(ever[top := ever[top] + texts]) == Retained(ever) + texts
    ensures |files[top := files[top] + Flatten(texts)]| == |files|
    ensures var logs', ever' := logs[top := logs[top] + texts], ever[top := ever[top] + texts];
      Oldest(ever, ever.Keys - logs.Keys) ==> Oldest(ever', ever'.Keys - logs'.Keys)
  {
    hide Flatten, Retained;
    FlattenConcat(logs[top], texts);
    AppendAtTop(ever, top, texts);
    assert files[top := files[top] + Flatten(texts)].Keys == files.Keys;
    assert ever[top := ever[top] + texts].Keys == ever.Keys && logs[top := logs[top] + texts].Keys == logs.Keys;
  }

  lemma {:induction false} PrefixIsShorter(records: seq<Text>, n: nat)
    requires n <= |records|
    ensures |Flatten(records[..n])| <= |Flatten(records)|
  {
    FlattenConcat(records[..n], records[n..]);
    assert records == records[..n] + records[n..];
  }

  /** A record that found the file below its limit. */
  lemma OneMore(records: seq<Text>, r: Text, maxBytes: nat, missed: nat)
    requires |Flatten(records)| < maxBytes
    ensures SizeOk(records + [r], maxBytes, missed)
  {
    hide Flatten;
    var all := records + [r];
    if |all| > missed {
      assert all[..|all| - 1 - missed] == records[..|records| - missed];
      PrefixIsShorter(records, |records| - missed);
    }
  }

  /** A record that found it at its limit, after a rollover that failed. */
  lemma OneOver(records: seq<Text>, r: Text, maxBytes: nat, missed: nat)
    requires SizeOk(records, maxBytes, missed)
    ensures SizeOk(records + [r], maxBytes, missed + 1) && SizeOk(records, maxBytes, missed + 1)
  {
    hide Flatten;
    var all := records + [r];
    if |all| > missed + 1 {
      assert all[..|all| - 2 - missed] == records[..|records| - 1 - missed];
    }
    if |records| > missed + 1 {
      assert records[..|records| - 1 - missed][..|records| - 2 - missed] == records[..|records| - 2 - missed];
      PrefixIsShorter(records[..|records| - 1 - missed], |records| - 2 - missed);
    }
  }

  /** A limit of one file is exceeded by one while the active file changes. */
  function Most(maxFiles: nat): nat {
    if maxFiles < 2 then 2 else maxFiles
  }

  class Writer {
    const maxBytes: nat
    const maxFiles: nat
    var files: map<nat, Text>
    var seqNo: nat
    var written: nat
    /** The records of each file there is, and of each file there ever was. */
    ghost var logs: map<nat, seq<Text>>
    ghost var ever: map<nat, seq<Text>>
    /** What this run flushed, and what it found. */
    ghost var flushes: seq<Flush>
    ghost const found: seq<Text>
    ghost const first: nat
    /** The largest number of files that ever existed at once. */
    ghost var peak: nat
    /** Rollovers that failed, by the file that stayed active. */
    ghost var missed: map<nat, nat>
    /** No removal and no listing has failed; no write and no flush has. */
    ghost var tidy: bool
    ghost var lossless: bool

    /** Everything that arrived in the files, oldest first. */
    ghost function History(): seq<Text>
      reads `flushes
    {
      found + Arrived(flushes)
    }

    /** What holds after any failures. */
    ghost predicate Stored()
      reads `files, `logs, `ever, `flushes, `lossless, `tidy, `peak
    {
      && StoreOk(files, logs, ever, History()) && FlushesOk(flushes, lossless)
      && (tidy ==> TidyOk(logs, ever) && peak <= Most(maxFiles))
    }

    ghost predicate Valid()
      reads this
    {
      && maxBytes >= 1 && maxFiles >= 1 && first <= seqNo && Stored()
      && seqNo in files && seqNo in missed && UpTo(ever, seqNo)
      && (tidy ==> |files| <= maxFiles)
      && (lossless ==> written == |files[seqNo]| && SizesOk(logs, first, maxBytes, missed))
    }

    /** While no removal failed, the files in numeric order are a suffix of everything that
        arrived; while no write failed, that is everything submitted, whole and in order. */
    lemma WhatIsKept()
      requires Stored()
      ensures tidy ==> var n := |History()| - |Retained(logs)|; n >= 0 && Retained(logs) == History()[n..]
      ensures lossless ==> History() == found + Submitted(flushes)
    {
      hide Retained, FilesOk, Intact, Oldest, Flatten;
      if tidy {
        LeftIsSuffix(logs, ever);
      }
      if lossless {
        LosslessArrives(flushes);
      }
    }

    /** Starts a new file past every file found, after making room for it. */
    constructor (found: map<nat, Text>, ghost records: map<nat, seq<Text>>, maxBytes: nat, maxFiles: nat)
      requires maxBytes >= 1 && maxFiles >= 1
      requires records.Keys == found.Keys && forall k | k in found :: found[k] == Flatten(records[k])
      ensures Valid() && this.maxBytes == maxBytes && this.maxFiles == maxFiles && lossless
      ensures this.found == Retained(records) && flushes == [] && (forall k | k in found :: k < seqNo)
      ensures files[seqNo] == []
    {
      hide Retained, Stored, Flatten, Valid, UpTo;
      this.maxBytes, this.maxFiles := maxBytes, maxFiles;
      var top := Highest(found.Keys);
      var next := top + 1;
      seqNo, written := next, 0;
      first := next;
      files, logs, ever := found, records, records;
      this.found, flushes, peak, missed := Retained(records), [], 0, map[];
      tidy, lossless := true, true;
      new;
      StoredAtFirst(top);
      Begin(next);
    }

    /** Makes room and opens the first file of this run. */
    method Begin(next: nat)
      requires maxBytes >= 1 && maxFiles >= 1 && next > 0 && first == next
      requires Stored() && UpTo(ever, next - 1)
      modifies `files, `logs, `ever, `seqNo, `written, `peak, `missed, `tidy
      ensures Valid() && seqNo == next && files[seqNo] == []
    {
      hide Retained, Stored, Flatten, SizesOk, Part, UpTo;
      var _ := Prune(maxFiles - 1, None);
      Create(next);
      Known();
      EmptyFileOk(logs, ever, next, missed);
    }

    static lemma Fresh(files: map<nat, Text>, records: map<nat, seq<Text>>)
      requires records.Keys == files.Keys && forall k | k in files :: files[k] == Flatten(records[k])
      ensures StoreOk(files, records, records, Retained(records)) && TidyOk(records, records) && FlushesOk([], true)
    {
      hide Retained, Flatten;
    }

    lemma StoredAtFirst(top: nat)
      requires files.Keys == logs.Keys && (forall k | k in files :: files[k] == Flatten(logs[k])) && ever == logs
      requires flushes == [] && found == Retained(logs) && peak == 0 && lossless
      requires forall k | k in files :: k <= top
      ensures Stored() && UpTo(ever, top)
    {
      hide Retained, StoreOk, TidyOk, FlushesOk, Flatten;
      Fresh(files, logs);
      assert Arrived([]) == [] && found + [] == found;
    }

    lemma EmptyFileOk(logs: map<nat, seq<Text>>, ever: map<nat, seq<Text>>, number: nat, missed: map<nat, nat>)
      requires number in logs && logs[number] == [] && logs.Keys <= ever.Keys && UpTo(ever, number)
      requires number in missed
      ensures SizesOk(logs, number, maxBytes, missed)
    {
    }

    /** Removes all but the newest `keep` files, and never the protected one. A listing that
        fails removes nothing, and a removal that fails leaves that file. */
    method Prune(keep: nat, protect: Option<nat>) returns (ok: bool)
      requires Stored()
      requires protect.Some? ==> protect.value in files && forall k | k in files :: k <= protect.value
      modifies `files, `logs, `tidy
      ensures Stored() && tidy == (old(tidy) && ok)
      ensures Part(files, old(files)) && Part(logs, old(logs))
      ensures protect.Some? ==> protect.value in files
      ensures |files| <= |old(files)| && (ok ==> |files| <= if protect.Some? && keep == 0 then 1 else keep)
    {
      hide StoreOk, TidyOk, FlushesOk, AllButNewest, Part, Unprotected;
      AllPart(files, logs, {});
      var listed: bool := *;
      if !listed {
        tidy := false;
        return false;
      }
      var targets := PruneTargets(files.Keys, keep);
      var chosen := Unprotected(targets, protect);
      var removed;
      removed, ok := Removable(chosen);
      StorePruned(files, logs, ever, History(), targets, keep, protect, removed);
      AllPart(files, logs, removed);
      tidy := tidy && ok;
      files := files - removed;
      logs := logs - removed;
    }

    /** Which removals succeed. */
    static method Removable(chosen: set<nat>) returns (removed: set<nat>, all: bool)
      ensures removed <= chosen && (all <==> removed == chosen)
    {
      var refused: set<nat> := *;
      removed := chosen - refused;
      all := removed == chosen;
    }

    static lemma AllPart(files: map<nat, Text>, logs: map<nat, seq<Text>>, removed: set<nat>)
      ensures Part(files - removed, files) && Part(logs - removed, logs) && Part(files, files) && Part(logs, logs)
    {
    }

    /** Opens an empty file past all others and makes it the active one. */
    method Create(number: nat)
      requires Stored() && number > 0 && UpTo(ever, number - 1)
      requires tidy ==> |files| < Most(maxFiles)
      modifies `files, `logs, `ever, `seqNo, `written, `peak, `missed
      ensures Stored() && seqNo == number && written == 0 && missed == old(missed)[number := 0]
      ensures files == old(files)[number := []] && |files| == |old(files)| + 1
      ensures logs == old(logs)[number := []] && UpTo(ever, number)
    {
      hide StoreOk, TidyOk, FlushesOk, UpTo, Most;
      StoreCreated(files, logs, ever, History(), number);
      NowUpTo(ever, number);
      files := files[number := []];
      logs, ever := logs[number := []], ever[number := []];
      seqNo, written := number, 0;
      missed := missed[number := 0];
      peak := if |files| > peak then |files| else peak;
    }

    static lemma NowUpTo(ever: map<nat, seq<Text>>, number: nat)
      requires number > 0 && UpTo(ever, number - 1)
      ensures UpTo(ever[number := []], number)
    {
    }

    /** Changes to a new file, or stays with the active one when none can be created. */
    method Rotate() returns (ok: bool)
      requires Valid()
      modifies this
      ensures Valid() && flushes == old(flushes) && lossless == old(lossless) && (tidy ==> old(tidy))
      ensures if ok then written == 0 && seqNo == old(seqNo) + 1 && missed == old(missed)[seqNo := 0]
              else seqNo == old(seqNo) && written == old(written)
                   && missed == old(missed)[seqNo := old(missed)[seqNo] + 1]
      ensures lossless ==> Room([])
    {
      hide Valid, Room;
      var _ := MakeRoom();
      ok := *;
      if ok {
        StartNext();
      } else {
        StayWithFile();
      }
    }

    /** Removes files so that one more may be created. */
    method MakeRoom() returns (ok: bool)
      requires Valid()
      modifies `files, `logs, `tidy
      ensures Valid() && (tidy ==> old(tidy) && |files| < Most(maxFiles))
      ensures Part(logs, old(logs))
    {
      hide Stored, Flatten, SizesOk, Part, UpTo;
      ghost var before := logs;
      OnlyUpTo();
      ok := Prune(maxFiles - 1, Some(seqNo));
      SamePart(files, old(files), seqNo);
      FewerSizes(before, logs, first, maxBytes, missed);
    }

    static lemma SamePart<V>(small: map<nat, V>, big: map<nat, V>, k: nat)
      requires Part(small, big) && k in small
      ensures k in big && small[k] == big[k]
    {
    }

    method StayWithFile()
      requires Valid()
      modifies `missed
      ensures Valid() && missed == old(missed)[seqNo := old(missed)[seqNo] + 1] && (lossless ==> Room([]))
    {
      hide Stored, Flatten, SizesOk, UpTo, Room;
      HasLog();
      missed := missed[seqNo := missed[seqNo] + 1];
      if lossless {
        StayedWithFile();
      }
    }

    lemma HasLog()
      requires Stored() && seqNo in files
      ensures seqNo in logs
    {
      Known();
    }

    method StartNext()
      requires Valid() && (tidy ==> |files| < Most(maxFiles))
      modifies this
      ensures Valid() && flushes == old(flushes) && lossless == old(lossless) && (tidy ==> old(tidy))
      ensures written == 0 && seqNo == old(seqNo) + 1 && missed == old(missed)[seqNo := 0] && Room([])
    {
      hide Stored, Flatten, SizesOk, Part, UpTo, Room, Most;
      NewSize(logs, first, maxBytes, missed, seqNo + 1);
      Create(seqNo + 1);
      OnlyUpTo();
      ghost var before, contents := logs, files;
      var _ := Prune(maxFiles, Some(seqNo));
      HasLog();
      SamePart(files, contents, seqNo);
      SamePart(logs, before, seqNo);
      FewerSizes(before, logs, first, maxBytes, missed);
      RoomWhenEmpty();
    }

    lemma OnlyUpTo()
      requires Stored() && UpTo(ever, seqNo)
      ensures forall k | k in files :: k <= seqNo
    {
      hide Flatten, Retained, TidyOk, FlushesOk;
    }

    lemma Known()
      requires Stored()
      ensures logs.Keys == files.Keys && logs.Keys <= ever.Keys
      ensures forall k | k in files :: files[k] == Flatten(logs[k])
    {
      hide Retained, Flatten, TidyOk, FlushesOk;
    }

    lemma RoomWhenEmpty()
      requires maxBytes >= 1 && seqNo in logs && seqNo in missed && logs[seqNo] == []
      ensures Room([])
    {
      forall r: Text ensures SizeOk(logs[seqNo] + [] + [r], maxBytes, missed[seqNo]) {
        assert logs[seqNo] + [] == [] && |Flatten([])| == 0;
        OneMore(logs[seqNo] + [], r, maxBytes, missed[seqNo]);
      }
    }

    /** Staying with the active file makes room for one record more. */
    twostate lemma StayedWithFile()
      requires seqNo == old(seqNo) && logs == old(logs) && seqNo in old(missed) && seqNo in logs && first <= seqNo
      requires missed == old(missed)[seqNo := old(missed)[seqNo] + 1] && old(SizesOk(logs, first, maxBytes, missed))
      ensures Room([]) && SizesOk(logs, first, maxBytes, missed)
    {
      hide SizeOk;
      var records, miss := logs[seqNo], old(missed)[seqNo];
      MissOne(logs, first, maxBytes, old(missed), seqNo);
      forall r: Text ensures SizeOk(records + [] + [r], maxBytes, miss + 1) {
        assert records + [] == records;
        OneOver(records, r, maxBytes, miss);
      }
    }

    static lemma FewerSizes(before: map<nat, seq<Text>>, logs: map<nat, seq<Text>>, first: nat, maxBytes: nat,
                            missed: map<nat, nat>)
      requires Part(logs, before)
      ensures SizesOk(before, first, maxBytes, missed) ==> SizesOk(logs, first, maxBytes, missed)
    {
      hide SizeOk;
    }

    static lemma MissOne(logs: map<nat, seq<Text>>, first: nat, maxBytes: nat, missed: map<nat, nat>, k: nat)
      requires k in missed
      ensures SizesOk(logs, first, maxBytes, missed) ==> SizesOk(logs, first, maxBytes, missed[k := missed[k] + 1])
    {
      hide SizeOk;
      if k in logs && SizeOk(logs[k], maxBytes, missed[k]) {
        OneOver(logs[k], [], maxBytes, missed[k]);
      }
    }

    static lemma NewSize(logs: map<nat, seq<Text>>, first: nat, maxBytes: nat, missed: map<nat, nat>, number: nat)
      ensures SizesOk(logs, first, maxBytes, missed) ==>
        SizesOk(logs[number := []], first, maxBytes, missed[number := 0])
    {
    }

    /** Hands the buffered records to the active file. A failed write leaves at most the first
        bytes of them and does not count them; a failed flush does count them. */
    method FlushPending(buffer: Text, ghost buffered: seq<Text>) returns (stored: bool, ghost f: Flush)
      requires Valid() && buffer == Flatten(buffered) && (lossless ==> Pending(buffered))
      modifies this
      ensures Valid() && seqNo == old(seqNo) && files.Keys == old(files).Keys && missed == old(missed)
      ensures tidy == old(tidy) && lossless == (old(lossless) && !f.lost)
      ensures flushes == old(flushes) + [f] && f.records == buffered && FlushOk(f)
      ensures (!f.lost ==> stored) && written == old(written) + if stored then |buffer| else 0
      ensures logs[seqNo] == old(logs)[seqNo] + Landing(f)
    {
      hide Stored, Flatten, SizeOk, SizesOk, FlushOk, UpTo;
      HasLog();
      var fragment;
      stored, fragment, f := Attempt(buffer, buffered);
      SizeGrown(logs, first, maxBytes, missed, seqNo, Landing(f));
      Land(fragment, f);
      written := written + if stored then |buffer| else 0;
    }

    /** How the writing and the flushing go, and what they leave in the file. */
    static method Attempt(buffer: Text, ghost buffered: seq<Text>) returns (stored: bool, left: Text, ghost f: Flush)
      requires buffer == Flatten(buffered)
      ensures f.records == buffered && FlushOk(f) && left == Flatten(Landing(f)) && left <= buffer
      ensures !f.lost ==> stored && left == buffer
    {
      hide Flatten;
      stored := *;
      var flushed: bool := *;
      if buffer == [] {
        stored, flushed := true, true;
      }
      var length :| 0 <= length <= |buffer|;
      var lost := !stored || !flushed;
      left := if lost then buffer[..length] else buffer;
      f := Flush(buffered, lost, if lost then left else []);
      LandingBytes(f, buffer);
    }

    /** The bytes go to the end of the active file. */
    method Land(bytes: Text, ghost f: Flush)
      requires Stored() && seqNo in files && seqNo in logs && UpTo(ever, seqNo) && FlushOk(f)
      requires bytes == Flatten(Landing(f))
      modifies `files, `logs, `ever, `flushes, `lossless
      ensures Stored() && files == old(files)[seqNo := old(files)[seqNo] + bytes] && |files| == |old(files)|
      ensures logs == old(logs)[seqNo := old(logs)[seqNo] + Landing(f)] && UpTo(ever, seqNo)
      ensures flushes == old(flushes) + [f] && lossless == (old(lossless) && !f.lost)
    {
      hide StoreOk, TidyOk, FlushesOk, Flatten, FlushOk, Arrived, Landing;
      ghost var texts := Landing(f);
      StoreGrown(files, logs, ever, History(), seqNo, texts, bytes);
      FlushSnoc(flushes, f);
      FlushesSnoc(flushes, lossless, f);
      assert found + (Arrived(flushes) + texts) == History() + texts;
      files := files[seqNo := files[seqNo] + bytes];
      logs, ever := logs[seqNo := logs[seqNo] + texts], ever[seqNo := ever[seqNo] + texts];
      flushes := flushes + [f];
      lossless := lossless && !f.lost;
    }

    static lemma SizeGrown(logs: map<nat, seq<Text>>, first: nat, maxBytes: nat, missed: map<nat, nat>, top: nat,
                           texts: seq<Text>)
      requires top in logs && top in missed
      ensures SizesOk(logs, first, maxBytes, missed) && SizeOk(logs[top] + texts, maxBytes, missed[top]) ==>
        SizesOk(logs[top := logs[top] + texts], first, maxBytes, missed)
    {
      hide SizeOk;
    }

    static lemma LandingBytes(f: Flush, buffer: Text)
      requires buffer == Flatten(f.records) && f.fragment <= buffer
      ensures Flatten(Landing(f)) == (if f.lost then f.fragment else buffer) && FlushOk(f)
    {
      if f.lost && f.fragment != [] {
        assert [f.fragment][..0] == [];
        assert Flatten([f.fragment]) == [] + f.fragment;
      }
    }

    /** With the buffered records, the active file is still within its limit. */
    ghost predicate Pending(buffered: seq<Text>)
      reads this
    {
      seqNo in logs && seqNo in missed && SizeOk(logs[seqNo] + buffered, maxBytes, missed[seqNo])
    }

    /** Any one record may follow the buffered ones. */
    ghost predicate Room(buffered: seq<Text>)
      reads this
    {
      && seqNo in logs && seqNo in missed
      && forall r: Text :: SizeOk(logs[seqNo] + buffered + [r], maxBytes, missed[seqNo])
    }

    /** Below the limit there is room. */
    lemma Below(buffered: seq<Text>)
      requires Valid() && written + |Flatten(buffered)| < maxBytes
      ensures lossless ==> Room(buffered)
    {
      if lossless {
        RoomBelow(buffered);
      }
    }

    lemma RoomBelow(buffered: seq<Text>)
      requires Valid() && lossless && written + |Flatten(buffered)| < maxBytes
      ensures Room(buffered)
    {
      hide SizeOk, Flatten, StoreOk, TidyOk, SizesOk, FlushesOk;
      Known();
      FlattenConcat(logs[seqNo], buffered);
      forall r: Text ensures SizeOk(logs[seqNo] + buffered + [r], maxBytes, missed[seqNo]) {
        OneMore(logs[seqNo] + buffered, r, maxBytes, missed[seqNo]);
      }
    }

    lemma TakeRoom(buffered: seq<Text>, r: Text)
      requires lossless ==> Room(buffered)
      ensures lossless ==> Pending(buffered + [r])
      ensures Flatten(buffered + [r]) == Flatten(buffered) + r
    {
      hide SizeOk, Flatten;
      FlattenSnoc(buffered, r);
      if lossless {
        assert logs[seqNo] + (buffered + [r]) == logs[seqNo] + buffered + [r];
      }
    }

    lemma NothingBuffered()
      requires Valid()
      ensures (lossless ==> Pending([])) && Flatten([]) == []
    {
      hide SizeOk, StoreOk, TidyOk, FlushesOk;
      Known();
      assert lossless ==> logs[seqNo] + [] == logs[seqNo];
    }

    static lemma NothingEncoded()
      ensures Encoded([]) == []
    {
    }

    /** Appends one batch, rotating before any record that finds the file at its limit. */
    method Write(batch: seq<Option<Text>>)
      requires Valid()
      modifies this
      ensures Valid() && Submitted(flushes) == Submitted(old(flushes)) + Encoded(batch)
      ensures lossless ==> History() == old(History()) + Encoded(batch)
      ensures old(flushes) <= flushes && (tidy ==> old(tidy)) && (lossless ==> old(lossless))
    {
      hide Valid, Pending, Room, Encoded, Flatten, Submitted, History;
      AllArrived();
      var buffer: Text := [];
      ghost var buffered: seq<Text> := [];
      NothingBuffered();
      NothingEncoded();
      assert batch[..0] == [] && Submitted(flushes) + [] == Submitted(flushes);
      for i := 0 to |batch|
        invariant Valid() && buffer == Flatten(buffered) && (lossless ==> Pending(buffered))
        invariant Submitted(flushes) + buffered == Submitted(old(flushes)) + Encoded(batch[..i])
        invariant old(flushes) <= flushes && (tidy ==> old(tidy)) && (lossless ==> old(lossless))
      {
        if written + |buffer| >= maxBytes {
          FlushAndRotate(buffer, buffered);
          buffer, buffered := [], [];
        } else {
          Below(buffered);
        }
        EncodedSnoc(batch[..i], batch[i]);
        assert batch[..i + 1] == batch[..i] + [batch[i]];
        if batch[i].Some? {
          TakeRoom(buffered, batch[i].value);
          Associate(Submitted(flushes), buffered, batch[i].value, Submitted(old(flushes)), Encoded(batch[..i]));
          buffer := buffer + batch[i].value;
          buffered := buffered + [batch[i].value];
        }
      }
      assert batch[..|batch|] == batch;
      ghost var before := flushes;
      var _, f := FlushPending(buffer, buffered);
      FlushSnoc(before, f);
      AllArrived();
      assert (found + Submitted(old(flushes))) + Encoded(batch) == found + (Submitted(old(flushes)) + Encoded(batch));
    }

    lemma AllArrived()
      requires Valid()
      ensures lossless ==> History() == found + Submitted(flushes)
    {
      hide Stored, Submitted, History;
      WhatIsKept();
    }

    static lemma Associate(a: seq<Text>, b: seq<Text>, r: Text, c: seq<Text>, d: seq<Text>)
      requires a + b == c + d
      ensures a + (b + [r]) == c + (d + [r])
    {
      assert a + (b + [r]) == (a + b) + [r] && c + (d + [r]) == (c + d) + [r];
    }

    /** The file is at its limit: what is buffered goes there, and the rest to the next one. */
    method FlushAndRotate(buffer: Text, ghost buffered: seq<Text>)
      requires Valid() && buffer == Flatten(buffered) && (lossless ==> Pending(buffered))
      modifies this
      ensures Valid() && Flatten([]) == [] && (lossless ==> Pending([]) && Room([]))
      ensures Submitted(flushes) + [] == Submitted(old(flushes)) + buffered
      ensures old(flushes) <= flushes && (tidy ==> old(tidy)) && (lossless ==> old(lossless))
    {
      hide Valid, Pending, Room, Flatten, Submitted;
      var _, f := FlushPending(buffer, buffered);
      FlushSnoc(old(flushes), f);
      var _ := Rotate();
      NothingBuffered();
    }
  }
}
