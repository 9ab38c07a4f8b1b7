/**
 The record that goes with the host DNS override. The record is written before the
 override is touched, and the process may die between any two steps: then memory is
 lost, while the file and the override stay as they are. A call that was given up may
 still take effect at any later time.
 */
module DnsSync {
  import opened Prelude

  datatype Record = Record(interface: string, previous: seq<string>, applied: seq<string>, epoch: nat, restoring: bool)

  datatype OnDisk = Readable(record: Record) | Garbage

  /** How a platform call ended. A failure says nothing about what it has done; a call that
      timed out, or whose caller died, may even take effect later. */
  datatype Outcome<+T> = Done(value: T) | Failed | TimedOut

  /** Whether the record still describes the interface as it was first found. */
  predicate SameBaseline(a: Record, b: Record) {
    a.interface == b.interface && a.previous == b.previous
  }

  predicate HasBaseline(record: Option<Record>) {
    record.Some? && record.value.interface != ""
  }

  /** What is recorded before the override is touched: the baseline already owned, if any. */
  function PreRecord(memory: Option<Record>, servers: seq<string>, epoch: nat): Record {
    if HasBaseline(memory) then Record(memory.value.interface, memory.value.previous, servers, epoch, false)
    else Record("", [], servers, epoch, false)
  }

  /** What was done to the world, and how it went. */
  datatype Act =
    | Wrote(record: Option<Record>, ok: bool)
    | Applied(servers: seq<string>, answer: Outcome<Record>)
    | Undid(undone: Record, ok: bool)

  /** What must come right before an act: a record that names the servers before they are
      applied, and a confirmed restore before the record is cleared. */
  ghost predicate Follows(before: seq<Act>, act: Act) {
    match act
    case Applied(servers, _) =>
      before != [] && exists r: Record :: before[|before| - 1] == Wrote(Some(r), true) && r.applied == servers
    case Wrote(record, _) => record.Some? || (before != [] && before[|before| - 1].Undid? && before[|before| - 1].ok)
    case Undid(_, _) => true
  }

  ghost predicate Disciplined(acts: seq<Act>) {
    acts == [] || (Disciplined(acts[..|acts| - 1]) && Follows(acts[..|acts| - 1], acts[|acts| - 1]))
  }

  lemma DisciplinedSnoc(acts: seq<Act>, act: Act)
    requires Disciplined(acts) && Follows(acts, act)
    ensures Disciplined(acts + [act])
  {
    assert (acts + [act])[..|acts|] == acts;
  }

  /** The file as the acts leave it. */
  ghost function Left(disk: Option<OnDisk>, acts: seq<Act>): Option<OnDisk> {
    if acts == [] then disk
    else
      var act := acts[|acts| - 1];
      if act.Wrote? && act.ok then if act.record.Some? then Some(Readable(act.record.value)) else None
      else Left(disk, acts[..|acts| - 1])
  }

  lemma LeftSnoc(disk: Option<OnDisk>, acts: seq<Act>, act: Act)
    ensures Left(disk, acts + [act]) ==
      if act.Wrote? && act.ok then if act.record.Some? then Some(Readable(act.record.value)) else None
      else Left(disk, acts)
  {
    assert (acts + [act])[..|acts|] == acts;
  }

  lemma {:induction false} LeftConcat(disk: Option<OnDisk>, a: seq<Act>, b: seq<Act>)
    ensures Left(disk, a + b) == Left(Left(disk, a), b)
  {
    if b == [] {
      assert a + b == a;
    } else {
      assert (a + b)[..|a + b| - 1] == a + b[..|b| - 1];
      LeftConcat(disk, a, b[..|b| - 1]);
    }
  }

  // ---------- What is in place on the host ----------

  predicate IsUndo(act: Act) {
    act.Undid? && act.ok
  }

  /** Whether an override may be in place after the acts. `late` holds the positions between
      acts at which a call that had not reported success took effect. */
  ghost predicate InPlace(began: bool, acts: seq<Act>, late: set<nat>) {
    |acts| in late ||
    if acts == [] then began
    else
      var n := |acts| - 1;
      !IsUndo(acts[n]) && ((acts[n].Applied? && acts[n].answer.Done?) || InPlace(began, acts[..n], late))
  }

  lemma InPlaceSnoc(began: bool, acts: seq<Act>, late: set<nat>, act: Act)
    requires |acts| + 1 !in late
    ensures InPlace(began, acts + [act], late)
       <==> !IsUndo(act) && ((act.Applied? && act.answer.Done?) || InPlace(began, acts, late))
  {
    assert (acts + [act])[..|acts|] == acts;
  }

  predicate IsTimeout(act: Act) {
    act.Applied? && act.answer.TimedOut?
  }

  predicate AnyTimeout(acts: seq<Act>) {
    exists i | 0 <= i < |acts| :: IsTimeout(acts[i])
  }

  /** The last act is an apply call that did not report success. */
  predicate JustFailed(acts: seq<Act>) {
    acts != [] && acts[|acts| - 1].Applied? && !acts[|acts| - 1].answer.Done?
  }

  /** A call may take effect as it fails, and once one has timed out, at any later time. */
  ghost predicate CanLand(acts: seq<Act>, p: nat, awaited: bool) {
    p <= |acts| && (awaited || AnyTimeout(acts[..p]) || JustFailed(acts[..p]))
  }

  ghost predicate LateOk(acts: seq<Act>, late: set<nat>, awaited: bool) {
    forall p | p in late :: CanLand(acts, p, awaited)
  }

  lemma LateSnoc(acts: seq<Act>, late: set<nat>, awaited: bool, act: Act)
    requires LateOk(acts, late, awaited)
    ensures LateOk(acts + [act], late, awaited)
    ensures AnyTimeout(acts + [act]) <==> AnyTimeout(acts) || IsTimeout(act)
  {
    var more := acts + [act];
    forall p | p in late ensures CanLand(more, p, awaited) {
      assert more[..p] == acts[..p];
    }
    assert more[|acts|] == act && forall i | 0 <= i < |acts| :: more[i] == acts[i];
  }

  /** No restore was confirmed since position `p`. */
  ghost predicate NoUndoSince(acts: seq<Act>, p: nat) {
    forall i | p <= i < |acts| :: !IsUndo(acts[i])
  }

  ghost predicate LandedSinceUndo(acts: seq<Act>, late: set<nat>) {
    exists p :: p in late && NoUndoSince(acts, p)
  }

  /** An override may be in place that no record on disk can undo. */
  ghost predicate Stray(found: Option<OnDisk>, began: bool, acts: seq<Act>, late: set<nat>) {
    InPlace(began, acts, late) && Left(found, acts).None?
  }

  lemma {:induction false} LandingStays(began: bool, acts: seq<Act>, late: set<nat>, p: nat)
    requires p in late && p <= |acts| && NoUndoSince(acts, p)
    ensures InPlace(began, acts, late)
  {
    if |acts| !in late {
      LandingStays(began, acts[..|acts| - 1], late, p);
    }
  }

  /** A confirmed override, or one that was there to begin with, has its record. */
  lemma {:induction false} RecordedUnlessLate(found: Option<OnDisk>, began: bool, acts: seq<Act>, late: set<nat>)
    requires Disciplined(acts) && (began ==> found.Some?)
    requires InPlace(began, acts, late) && !LandedSinceUndo(acts, late)
    ensures Left(found, acts).Some?
  {
    hide Follows;
    NotNow(acts, late);
    if acts != [] {
      var n := |acts| - 1;
      NotBefore(acts, late);
      LastFollows(acts);
      if acts[n].Applied? && acts[n].answer.Done? {
        assert Left(found, acts) == Left(found, acts[..n]);
      } else if acts[n].Wrote? && acts[n].ok && acts[n].record.None? {
        assert false;
      } else if !(acts[n].Wrote? && acts[n].ok) {
        RecordedUnlessLate(found, began, acts[..n], late);
      }
    }
  }

  lemma NotNow(acts: seq<Act>, late: set<nat>)
    requires !LandedSinceUndo(acts, late)
    ensures |acts| !in late
  {
    assert NoUndoSince(acts, |acts|);
  }

  lemma NotBefore(acts: seq<Act>, late: set<nat>)
    requires acts != [] && !LandedSinceUndo(acts, late) && !IsUndo(acts[|acts| - 1])
    ensures !LandedSinceUndo(acts[..|acts| - 1], late)
  {
    var front := acts[..|acts| - 1];
    forall p | p in late ensures !NoUndoSince(front, p) {
      var i :| p <= i < |acts| && IsUndo(acts[i]);
      assert IsUndo(front[i]);
    }
  }

  /** What the last act followed. */
  lemma LastFollows(acts: seq<Act>)
    requires acts != [] && Disciplined(acts)
    ensures var n := |acts| - 1;
      && Disciplined(acts[..n])
      && (acts[n].Applied? ==> n > 0 && acts[n - 1].Wrote? && acts[n - 1].ok && acts[n - 1].record.Some?)
      && (acts[n].Wrote? && acts[n].record.None? ==> n > 0 && IsUndo(acts[n - 1]))
  {
  }

  /** An override is left without a record exactly when the record is gone and a call took
      effect after the last confirmed restore. */
  lemma StrayExact(found: Option<OnDisk>, began: bool, acts: seq<Act>, late: set<nat>)
    requires Disciplined(acts) && (began ==> found.Some?) && forall p | p in late :: p <= |acts|
    ensures Stray(found, began, acts, late) <==> Left(found, acts).None? && LandedSinceUndo(acts, late)
  {
    hide Disciplined, InPlace, Left, NoUndoSince;
    if LandedSinceUndo(acts, late) {
      var p :| p in late && NoUndoSince(acts, p);
      LandingStays(began, acts, late, p);
    } else if InPlace(began, acts, late) {
      RecordedUnlessLate(found, began, acts, late);
    }
  }

  /** A record stays on disk as long as no restore is confirmed. */
  lemma {:induction false} RecordStays(found: Option<OnDisk>, acts: seq<Act>, p: nat)
    requires Disciplined(acts) && p <= |acts| && NoUndoSince(acts, p)
    requires Left(found, acts[..p]).Some? && (p == 0 || !IsUndo(acts[p - 1]))
    ensures Left(found, acts).Some?
  {
    hide Follows;
    if p == |acts| {
      assert acts[..p] == acts;
    } else {
      var n := |acts| - 1;
      LastFollows(acts);
      assert acts[..n][..p] == acts[..p];
      RecordStays(found, acts[..n], p);
      assert n > 0 ==> !IsUndo(acts[n - 1]);
    }
  }

  /** Without a timeout nothing is ever left without a record. */
  lemma NoStray(found: Option<OnDisk>, began: bool, acts: seq<Act>, late: set<nat>)
    requires Disciplined(acts) && (began ==> found.Some?) && LateOk(acts, late, false) && !AnyTimeout(acts)
    ensures !Stray(found, began, acts, late)
  {
    hide Disciplined, InPlace, Left, Follows, NoUndoSince;
    StrayExact(found, began, acts, late);
    if LandedSinceUndo(acts, late) {
      var p :| p in late && NoUndoSince(acts, p);
      assert CanLand(acts, p, false) && !AnyTimeout(acts[..p]);
      DisciplinedPrefix(acts, p);
      LastFollows(acts[..p]);
      AppliedIsRecorded(found, acts[..p]);
      RecordStays(found, acts, p);
    }
  }

  lemma {:induction false} DisciplinedPrefix(acts: seq<Act>, p: nat)
    requires Disciplined(acts) && p <= |acts|
    ensures Disciplined(acts[..p])
  {
    if p < |acts| {
      DisciplinedPrefix(acts[..|acts| - 1], p);
      assert acts[..|acts| - 1][..p] == acts[..p];
    } else {
      assert acts[..p] == acts;
    }
  }

  lemma AppliedIsRecorded(found: Option<OnDisk>, acts: seq<Act>)
    requires Disciplined(acts) && acts != [] && acts[|acts| - 1].Applied?
    ensures Left(found, acts).Some?
  {
    LastFollows(acts);
  }

  /** The acts may go on, without another timeout, so that an override is left without a
      record. */
  ghost predicate CanStray(found: Option<OnDisk>, began: bool, acts: seq<Act>, awaited: bool) {
    exists more: seq<Act>, late: set<nat> ::
      && Disciplined(acts + more) && !AnyTimeout(more) && LateOk(acts + more, late, awaited)
      && Stray(found, began, acts + more, late)
  }

  /** That is possible exactly once some call has timed out. */
  lemma StrayPossible(found: Option<OnDisk>, began: bool, acts: seq<Act>, awaited: bool)
    requires Disciplined(acts) && (began ==> found.Some?)
    ensures CanStray(found, began, acts, awaited) <==> awaited || AnyTimeout(acts)
  {
    hide Disciplined, InPlace, Left, Follows, LateOk, Stray;
    if awaited || AnyTimeout(acts) {
      StrayAfterTimeout(found, began, acts, awaited);
    } else {
      forall more: seq<Act>, late: set<nat>
        | Disciplined(acts + more) && !AnyTimeout(more) && LateOk(acts + more, late, awaited)
        ensures !Stray(found, began, acts + more, late)
      {
        NoTimeoutInBoth(acts, more);
        NoStray(found, began, acts + more, late);
      }
    }
  }

  lemma NoTimeoutInBoth(a: seq<Act>, b: seq<Act>)
    requires !AnyTimeout(a) && !AnyTimeout(b)
    ensures !AnyTimeout(a + b)
  {
    forall i | 0 <= i < |a + b| ensures !IsTimeout((a + b)[i]) {
      assert (a + b)[i] == if i < |a| then a[i] else b[i - |a|];
    }
  }

  lemma StrayAfterTimeout(found: Option<OnDisk>, began: bool, acts: seq<Act>, awaited: bool)
    requires Disciplined(acts) && (awaited || AnyTimeout(acts))
    ensures CanStray(found, began, acts, awaited)
  {
    var undo, clear := Undid(Record("", [], [], 0, false), true), Wrote(None, true);
    var more, late := [undo, clear], {|acts| + 2};
    assert acts + [undo] + [clear] == acts + more;
    DisciplinedSnoc(acts, undo);
    DisciplinedSnoc(acts + [undo], clear);
    LeftSnoc(found, acts + [undo], clear);
    assert (acts + more)[..|acts| + 2] == acts + more;
    LateSnoc(acts, {}, awaited, undo);
    LateSnoc(acts + [undo], {}, awaited, clear);
    assert LateOk(acts + more, late, awaited);
    assert Stray(found, began, acts + more, late);
    assert !AnyTimeout(more);
  }

  /** At every moment of every run, whatever crashed or failed in between. */
  lemma {:induction false} AlwaysInOrder(acts: seq<Act>, i: nat)
    requires Disciplined(acts) && i < |acts|
    ensures Follows(acts[..i], acts[i])
  {
    if i < |acts| - 1 {
      AlwaysInOrder(acts[..|acts| - 1], i);
      assert acts[..|acts| - 1][..i] == acts[..i];
    }
  }

  /** The steps of clearing an orphan: nothing without a readable record and a controller,
      and the file only after a confirmed restore. */
  ghost function OrphanActs(disk: Option<OnDisk>, controller: bool, undone: bool, cleared: bool): seq<Act> {
    if disk.None? || disk.value.Garbage? || !controller then []
    else if undone then [Undid(disk.value.record, true), Wrote(None, cleared)]
    else [Undid(disk.value.record, false)]
  }

  /** The steps of a restore: the mark, the restore whether or not the mark was written, and
      the file only after a confirmed restore. */
  ghost function RestoreActs(record: Record, marked: bool, undone: bool, cleared: bool): seq<Act> {
    [Wrote(Some(record.(restoring := true)), marked), Undid(record, undone)]
    + if undone then [Wrote(None, cleared)] else []
  }

  /** The steps of applying: the record first; the override only if that was written; what
      was read back only if there was something, on the interface that is on record. */
  ghost function ApplyActs(memory: Option<Record>, servers: seq<string>, epoch: nat, recorded: bool,
                           answer: Outcome<Record>, kept: bool): seq<Act> {
    var pre := PreRecord(memory, servers, epoch);
    if !recorded then [Wrote(Some(pre), false)]
    else if !answer.Done? || (HasBaseline(memory) && answer.value.interface != pre.interface)
    then [Wrote(Some(pre), true), Applied(servers, answer)]
    else
      var record := if HasBaseline(memory) then answer.value.(previous := pre.previous) else answer.value;
      [Wrote(Some(pre), true), Applied(servers, answer), Wrote(Some(record), kept)]
  }

  ghost predicate Baseline(disk: Option<OnDisk>) {
    disk.Some? && disk.value.Readable? && disk.value.record.interface != ""
  }

  ghost predicate StillOn(disk: Option<OnDisk>, record: Record) {
    disk.Some? && disk.value.Readable? && SameBaseline(disk.value.record, record)
  }

  /** When applying keeps the baseline on disk, by what is in memory and what the environment
      answers: whether the record is written, the apply call, whether what it read back is. */
  ghost predicate KeepsRecord(memory: Option<Record>, recorded: bool, answer: Outcome<Record>, kept: bool,
                              record: Record) {
    memory.Some? || !recorded || (answer.Done? && kept && SameBaseline(answer.value, record))
  }

  lemma BaselineKept(record: Record, memory: Option<Record>, servers: seq<string>, epoch: nat, recorded: bool,
                     answer: Outcome<Record>, kept: bool)
    requires record.interface != "" && (memory.Some? ==> memory.value == record)
    ensures StillOn(Left(Some(Readable(record)), ApplyActs(memory, servers, epoch, recorded, answer, kept)), record)
       <==> KeepsRecord(memory, recorded, answer, kept, record)
  {
    hide Left;
    var left, pre := Some(Readable(record)), PreRecord(memory, servers, epoch);
    var first, failed, second := Wrote(Some(pre), true), Wrote(Some(pre), false), Applied(servers, answer);
    LeftNothing(left);
    assert [] + [first] == [first] && [] + [failed] == [failed] && [first] + [second] == [first, second];
    LeftSnoc(left, [], first);
    LeftSnoc(left, [], failed);
    LeftSnoc(left, [first], second);
    if answer.Done? {
      var read := if HasBaseline(memory) then answer.value.(previous := pre.previous) else answer.value;
      assert [first, second] + [Wrote(Some(read), kept)] == [first, second, Wrote(Some(read), kept)];
      LeftSnoc(left, [first, second], Wrote(Some(read), kept));
    }
  }

  lemma LeftNothing(disk: Option<OnDisk>)
    ensures Left(disk, []) == disk
  {
  }

  /** The environment can make the next apply lose the baseline exactly when memory does not
      hold it. */
  lemma LossPossible(record: Record, memory: Option<Record>, servers: seq<string>, epoch: nat)
    requires record.interface != "" && (memory.Some? ==> memory.value == record)
    ensures memory.None? <==> exists recorded, answer, kept ::
      !StillOn(Left(Some(Readable(record)), ApplyActs(memory, servers, epoch, recorded, answer, kept)), record)
  {
    hide Left, ApplyActs, StillOn;
    BaselineKept(record, memory, servers, epoch, true, Failed, false);
    forall recorded, answer, kept | memory.Some?
      ensures StillOn(Left(Some(Readable(record)), ApplyActs(memory, servers, epoch, recorded, answer, kept)), record)
    {
      BaselineKept(record, memory, servers, epoch, recorded, answer, kept);
    }
  }

  /** A baseline on disk can be lost: startup could not undo the override, so nothing is in
      memory, and applying the next one writes a record without a baseline. */
  lemma BaselineLost(record: Record, servers: seq<string>, epoch: nat)
    requires record.interface != ""
    ensures var left := Some(Readable(record));
      var acts := OrphanActs(left, true, false, false) + ApplyActs(None, servers, epoch, true, Failed, false);
      Disciplined(acts) && Baseline(left) && !StillOn(Left(left, acts), record)
  {
    var left, pre := Some(Readable(record)), PreRecord(None, servers, epoch);
    var first, second, third := Undid(record, false), Wrote(Some(pre), true), Applied(servers, Failed);
    assert [] + [first] == [first] && [first] + [second] == [first, second];
    DisciplinedSnoc([], first);
    DisciplinedSnoc([first], second);
    DisciplinedSnoc([first, second], third);
    LeftSnoc(left, [first], second);
    LeftSnoc(left, [first, second], third);
    assert [first, second] + [third]
        == OrphanActs(left, true, false, false) + ApplyActs(None, servers, epoch, true, Failed, false);
  }

  class DnsKeeper {
    /** What the running manager holds; gone after a crash. */
    var memory: Option<Record>
    var disk: Option<OnDisk>
    /** Whether an override may be in place on the host. */
    var effect: bool
    /** Whether a call that was given up may still take effect. */
    var pending: bool
    const controller: bool
    ghost var acts: seq<Act>
    /** Where between the acts a call that had not reported success took effect. */
    ghost var late: set<nat>
    /** The file, the override and the calls given up as this manager found them. */
    ghost const found: Option<OnDisk>
    ghost const began: bool
    ghost const awaited: bool

    /** What holds across a crash at any moment. */
    ghost predicate Safe()
      reads this
    {
      && Disciplined(acts) && disk == Left(found, acts)
      && effect == InPlace(began, acts, late) && LateOk(acts, late, awaited)
      && pending == (awaited || AnyTimeout(acts))
    }

    ghost predicate Inv()
      reads this
    {
      Safe() && (memory.Some? ==> disk == Some(Readable(memory.value)) && controller)
    }

    /** Unless a call given up took effect after a confirmed restore, a possible override has
        a record on disk; and without a call given up it always has. */
    lemma Guarded()
      requires Safe() && (began ==> found.Some?)
      ensures effect && disk.None? <==> disk.None? && LandedSinceUndo(acts, late)
      ensures !pending && effect ==> disk.Some?
    {
      hide Disciplined, Left, InPlace, AnyTimeout, NoUndoSince;
      StrayExact(found, began, acts, late);
      if !pending {
        NoStray(found, began, acts, late);
      }
    }

    /** Once an interface is on record, it stays, with the servers found on it. */
    twostate predicate KeepsBaseline()
      reads this
    {
      old(HasBaseline(memory)) ==> memory.Some? && SameBaseline(memory.value, old(memory).value)
    }

    /** What a call given up may have done meanwhile. */
    twostate predicate Landings()
      reads this
    {
      old(late) <= late && (!old(pending) ==> late == old(late))
    }

    /** A manager starting over whatever an earlier one left behind. */
    constructor (controller: bool, disk: Option<OnDisk>, effect: bool, pending: bool)
      ensures Inv() && this.controller == controller && memory == None && acts == [] && late == {}
      ensures this.disk == disk && this.effect == effect && this.pending == pending
      ensures found == disk && began == effect && awaited == pending
    {
      this.controller, this.disk, this.effect, memory := controller, disk, effect, None;
      this.pending := pending;
      found, began, awaited := disk, effect, pending;
      acts, late := [], {};
    }

    /** Time passes: the process dies, or does not, and a call given up takes effect, or does
        not. */
    method MayCrash() returns (alive: bool)
      requires Safe()
      modifies `memory, `effect, `late
      ensures Safe() && memory == if alive then old(memory) else None
      ensures Landings() && (late == old(late) ==> effect == old(effect)) && (old(effect) ==> effect)
    {
      hide Disciplined, Left, InPlace, AnyTimeout, LateOk;
      var lands: bool := *;
      if pending && lands {
        LandsNow(began, acts, late, awaited);
        effect := true;
        late := late + {|acts|};
      }
      alive := *;
      if !alive {
        memory := None;
      }
    }

    static lemma LandsNow(began: bool, acts: seq<Act>, late: set<nat>, awaited: bool)
      requires LateOk(acts, late, awaited)
      requires awaited || AnyTimeout(acts) || JustFailed(acts)
      ensures InPlace(began, acts, late + {|acts|}) && LateOk(acts, late + {|acts|}, awaited)
    {
      assert acts[..|acts|] == acts;
    }

    /** The history and what it says about the host after one more act. */
    lemma After(act: Act)
      requires Safe() && Follows(acts, act)
      ensures Disciplined(acts + [act]) && LateOk(acts + [act], late, awaited)
      ensures Left(found, acts + [act]) ==
        if act.Wrote? && act.ok then if act.record.Some? then Some(Readable(act.record.value)) else None else disk
      ensures InPlace(began, acts + [act], late) <==> !IsUndo(act) && ((act.Applied? && act.answer.Done?) || effect)
      ensures AnyTimeout(acts + [act]) <==> AnyTimeout(acts) || IsTimeout(act)
    {
      hide Disciplined, Left, InPlace, AnyTimeout, Follows, CanLand;
      assert |acts| + 1 !in late by {
        if |acts| + 1 in late {
          assert CanLand(acts, |acts| + 1, awaited);
          TooFar(acts, |acts| + 1, awaited);
        }
      }
      DisciplinedSnoc(acts, act);
      LeftSnoc(found, acts, act);
      InPlaceSnoc(began, acts, late, act);
      LateSnoc(acts, late, awaited, act);
    }

    static lemma TooFar(acts: seq<Act>, p: nat, awaited: bool)
      requires CanLand(acts, p, awaited)
      ensures p <= |acts|
    {
    }

    /** Publishes or removes the record file as a whole. Memory follows what is visible, so
        a failure leaves both alone, and a crash may leave only the file changed. */
    method Persist(record: Option<Record>) returns (ok: bool, alive: bool)
      requires Inv() && (record.Some? ==> controller) && Follows(acts, Wrote(record, true))
      modifies `memory, `disk, `acts, `effect, `late
      ensures Inv() && old(acts) <= acts && (alive ==> acts == old(acts) + [Wrote(record, ok)])
      ensures !alive ==> memory == None && !ok
      ensures alive && ok ==> memory == record && disk == if record.Some? then Some(Readable(record.value)) else None
      ensures alive && !ok ==> memory == old(memory) && disk == old(disk)
      ensures disk == old(disk) || disk == if record.Some? then Some(Readable(record.value)) else None
      ensures Landings() && (late == old(late) ==> effect == old(effect)) && (old(effect) ==> effect)
    {
      hide Disciplined, Left, InPlace, AnyTimeout, LateOk;
      alive := MayCrash();
      After(Wrote(record, true));
      After(Wrote(record, false));
      var written: bool := *;
      if !alive || !written {
        acts := acts + [Wrote(record, false)];
        return false, alive;
      }
      acts := acts + [Wrote(record, true)];
      disk := if record.Some? then Some(Readable(record.value)) else None;
      alive := MayCrash();
      if !alive {
        return false, false;
      }
      memory := record;
      return true, true;
    }

    /** An override goes into place only when a record that names its servers is on disk. A
        failed call may have put it there, and one that timed out may do so later. */
    method Apply(servers: seq<string>, epoch: nat) returns (r: Outcome<Record>, alive: bool)
      requires Inv() && memory.Some? && memory.value.applied == servers && acts != []
      requires acts[|acts| - 1] == Wrote(memory, true)
      modifies `effect, `memory, `acts, `pending, `late
      ensures Inv() && memory == if alive then old(memory) else None
      ensures (r.Done? ==> alive && effect) && (!alive ==> r.TimedOut?)
      ensures acts == old(acts) + [Applied(servers, r)] && old(late) <= late
      ensures pending == (old(pending) || r.TimedOut?)
    {
      hide Disciplined, Left, InPlace, AnyTimeout, LateOk, Follows;
      ghost var named := memory.value;
      alive := MayCrash();
      r := *;
      if !alive {
        r := TimedOut;
      }
      NamedBefore(acts, named, r);
      After(Applied(servers, r));
      acts := acts + [Applied(servers, r)];
      effect, pending := effect || r.Done?, pending || r.TimedOut?;
      var landed: bool := *;
      if !r.Done? && landed {
        LandsNow(began, acts, late, awaited);
        effect := true;
        late := late + {|acts|};
      }
    }

    static lemma NamedBefore(acts: seq<Act>, record: Record, answer: Outcome<Record>)
      requires acts != [] && acts[|acts| - 1] == Wrote(Some(record), true)
      ensures Follows(acts, Applied(record.applied, answer))
    {
    }

    /** Only a confirmed restore takes the override out. */
    method Undo(record: Record) returns (r: Outcome<()>, alive: bool)
      requires Inv()
      modifies `effect, `memory, `acts, `late
      ensures Inv() && memory == (if alive then old(memory) else None) && Landings()
      ensures acts == old(acts) + [Undid(record, alive && r.Done?)]
      ensures if alive && r.Done? then !effect
              else (late == old(late) ==> effect == old(effect)) && (old(effect) ==> effect)
    {
      hide Disciplined, Left, InPlace, AnyTimeout, LateOk;
      alive := MayCrash();
      r := *;
      After(Undid(record, alive && r.Done?));
      acts := acts + [Undid(record, alive && r.Done?)];
      if alive && r.Done? {
        effect := false;
      }
    }

    /** At startup: a readable record left behind is undone and cleared; anything that
        goes wrong keeps the file. */
    method ReconcileOrphan() returns (alive: bool)
      requires Inv() && memory == None
      modifies `disk, `effect, `memory, `acts, `late
      ensures Inv() && memory == None && Landings()
      ensures late == old(late) && effect ==> old(effect)
      ensures disk == old(disk) || (disk == None && (late == old(late) ==> !effect))
      ensures alive ==> exists undone, cleared :: acts == old(acts) + OrphanActs(old(disk), controller, undone, cleared)
                                               && (undone && cleared && acts != old(acts) ==> disk == None)
    {
      hide Disciplined, Left, InPlace, AnyTimeout, LateOk;
      if disk.None? || disk.value.Garbage? || !controller {
        assert acts == old(acts) + OrphanActs(old(disk), controller, false, false);
        return true;
      }
      var r: Outcome<()>;
      r, alive := Undo(disk.value.record);
      if alive && r.Done? {
        alive := MayCrash();
        var removed: bool := *;
        removed := alive && removed;
        After(Wrote(None, removed));
        if removed {
          disk := None;
        }
        acts := acts + [Wrote(None, removed)];
        assert acts == old(acts) + OrphanActs(old(disk), controller, true, removed);
      } else {
        assert alive ==> acts == old(acts) + OrphanActs(old(disk), controller, false, false);
      }
    }

    /** Undoes the recorded override and clears the record. A record that cannot be marked
        does not stand in the way. */
    method Restore() returns (alive: bool)
      requires Inv()
      modifies this
      ensures Inv() && Landings() && (late == old(late) && effect ==> old(effect))
      ensures !alive ==> memory == None
      ensures alive && memory.None? && old(memory).Some? ==> disk == None && (late == old(late) ==> !effect)
      ensures alive && memory.Some? ==> KeepsBaseline() && old(memory).Some?
      ensures alive && memory.Some? ==> memory == old(memory) || memory.value == old(memory).value.(restoring := true)
      ensures old(memory).None? ==> alive && memory == None && disk == old(disk) && effect == old(effect)
      ensures alive ==> if !controller || old(memory).None? then acts == old(acts)
                        else exists marked, undone, cleared ::
                               acts == old(acts) + RestoreActs(old(memory).value, marked, undone, cleared)
    {
      hide Disciplined, Left, InPlace, AnyTimeout, LateOk;
      if !controller || memory.None? {
        return true;
      }
      var record := memory.value;
      var marked, ok := false, false;
      marked, alive := Persist(Some(record.(restoring := true)));
      if !alive {
        return;
      }
      var r: Outcome<()>;
      r, alive := Undo(record);
      if alive && r.Done? {
        ok, alive := Persist(None);
      }
      assert alive ==> acts == old(acts) + RestoreActs(record, marked, r.Done?, ok);
    }

    /** After a transaction: puts the override in place while a core wants one, and takes
        it out otherwise. `readBack` is the record that a confirmed override left. */
    method Converge(desired: Option<(seq<string>, nat)>) returns (alive: bool, readBack: Option<Record>)
      requires Inv()
      modifies this
      ensures Inv() && (!alive ==> memory == None)
      ensures alive && desired.Some? ==> KeepsBaseline()
      ensures alive && desired.None? && memory.Some? ==> KeepsBaseline()
      ensures alive && desired.None? && memory.None? && old(memory).Some? ==>
        disk == None && (late == old(late) ==> !effect)
      ensures old(late) <= late && (desired.None? ==> Landings())
      ensures !controller ==> alive && unchanged(this)
      ensures readBack.Some? ==> alive && desired.Some? && memory == readBack && effect
      ensures alive && controller && desired.Some? && readBack.None? ==>
        || (memory == old(memory) && (late == old(late) ==> effect == old(effect)))
        || memory == Some(PreRecord(old(memory), desired.value.0, desired.value.1))
      ensures alive && controller && desired.Some? ==> exists recorded, answer, kept ::
        && acts == old(acts) + ApplyActs(old(memory), desired.value.0, desired.value.1, recorded, answer, kept)
        && (old(Baseline(disk)) ==> (StillOn(disk, old(disk).value.record) <==>
                                     KeepsRecord(old(memory), recorded, answer, kept, old(disk).value.record)))
      ensures alive && desired.None? ==> if !controller || old(memory).None? then acts == old(acts)
        else exists marked, undone, cleared ::
               acts == old(acts) + RestoreActs(old(memory).value, marked, undone, cleared)
    {
      hide Disciplined, Left, InPlace, AnyTimeout, LateOk, StillOn;
      readBack := None;
      if !controller {
        return true, None;
      }
      if desired.None? {
        alive := Restore();
        return;
      }
      var (servers, epoch) := desired.value;
      ghost var recorded, answer: Outcome<Record>, kept := false, Failed, false;
      var owned := HasBaseline(memory);
      var preRecord := PreRecord(memory, servers, epoch);
      recorded, alive, readBack, answer, kept := ApplyDesired(servers, epoch, owned, preRecord);
      if alive {
        AsDecided(old(memory), old(disk), old(acts), servers, epoch, recorded, answer, kept);
      }
    }

    /** Records, applies, and records what was read back. */
    method ApplyDesired(servers: seq<string>, epoch: nat, owned: bool, preRecord: Record)
        returns (recorded: bool, alive: bool, readBack: Option<Record>, ghost answer: Outcome<Record>, ghost kept: bool)
      requires Inv() && controller
      requires owned == HasBaseline(memory) && preRecord == PreRecord(memory, servers, epoch)
      modifies this
      ensures Inv() && (!alive ==> memory == None) && old(late) <= late
      ensures alive ==> KeepsBaseline()
      ensures readBack.Some? ==> alive && memory == readBack && effect
      ensures alive && readBack.None? ==>
        || (memory == old(memory) && (late == old(late) ==> effect == old(effect)))
        || memory == Some(preRecord)
      ensures alive ==> acts == old(acts) + ApplyActs(old(memory), servers, epoch, recorded, answer, kept)
    {
      hide Disciplined, Left, InPlace, AnyTimeout, LateOk;
      readBack, answer, kept := None, Failed, false;
      recorded, alive := Persist(Some(preRecord));
      if !alive || !recorded {
        return;
      }
      var r: Outcome<Record>;
      r, alive := Apply(servers, epoch);
      answer := r;
      if !alive || !r.Done? {
        return;
      }
      var record := r.value;
      if owned {
        if record.interface != preRecord.interface {
          return;
        }
        record := record.(previous := preRecord.previous);
      }
      var ok;
      ok, alive := Persist(Some(record));
      kept := ok;
      if ok {
        readBack := Some(record);
      }
    }

    /** What the answers made of the baseline on disk. */
    lemma AsDecided(memory: Option<Record>, disk: Option<OnDisk>, before: seq<Act>, servers: seq<string>, epoch: nat,
                    recorded: bool, answer: Outcome<Record>, kept: bool)
      requires Safe() && acts == before + ApplyActs(memory, servers, epoch, recorded, answer, kept)
      requires disk == Left(found, before) && (memory.Some? ==> disk == Some(Readable(memory.value)))
      ensures Baseline(disk) ==> (StillOn(this.disk, disk.value.record) <==>
                                  KeepsRecord(memory, recorded, answer, kept, disk.value.record))
    {
      hide Disciplined, Left, InPlace, AnyTimeout, LateOk, StillOn, ApplyActs;
      LeftConcat(found, before, ApplyActs(memory, servers, epoch, recorded, answer, kept));
      if Baseline(disk) {
        BaselineKept(disk.value.record, memory, servers, epoch, recorded, answer, kept);
      }
    }
  }
}
