/**
 The manager's transactions: one slot, a quarantine list, an epoch allocator and the
 artifacts of each epoch. Every transaction runs under the control lock, so a run of
 the manager is a sequence of the public methods of `Manager`.
 */
module CoreManager {
  import opened Prelude
  import opened CoreHost
  import opened CoreLedger
  import ConfigBootstrap
  import ConfigPatch

  datatype Retired = Nothing | Done(plan: Plan) | NotProven(epoch: Epoch, unconfirmed: bool)

  datatype Kind = Noop | Patched | Reloaded | Restarted | Switched | RolledBack | Started

  datatype Outcome = Outcome(kind: Kind, revision: Revision)

  /** Errors of a transaction that has already been let in. */
  predicate Late(e: Error) {
    e.StopUnconfirmed? || e.RollbackFailed? || e.Failed?
  }

  datatype Spawned = Ready(pid: Pid) | Rejected | Lost

  class Manager {
    const host: Host
    /** Which assembled patches the control client's type accepts. */
    const decodes: Document -> bool
    var ctrl: Ctrl
    ghost var installs: seq<Install>

    /** What holds at every step of a transaction answering for the epochs in `hand`. */
    ghost predicate Sound(hand: set<Epoch>)
      reads this, host
    {
      && ProcsOk(host.procs, ctrl, hand) && ListsOk(ctrl, hand)
      && RecordsOk(host.procs, host.pidFiles) && FilesOk(host.files, ctrl.last) && InstallsOk(installs, ctrl.last)
    }

    ghost predicate OnDisk(plan: Plan)
      reads this, host
    {
      Lookup(host.files.runtime, plan.epoch) == Some(plan.document)
    }

    /** What holds between transactions. */
    ghost predicate Inv()
      reads this, host
    {
      && Sound({})
      && (ctrl.current.Some? ==> OnDisk(ctrl.current.value.plan) && LastInstalled(installs, ctrl.current.value.plan))
    }

    /** Epochs only grow, nothing leaves the quarantine, and the history is only added to. */
    ghost predicate Onward(c: Ctrl, launches: seq<Attempt>, was: seq<Install>)
      reads this, host
    {
      && c.last <= ctrl.last && Epochs(c.quarantine) <= Epochs(ctrl.quarantine)
      && launches <= host.procs.launches && was <= installs
    }

    /** The quarantine after a transaction that can only add the epoch it retired: it does
        so exactly when the error says that a stop was not confirmed. */
    ghost predicate Gathered(c: Ctrl, r: Result<()>)
      reads this
    {
      && ctrl.last == c.last
      && if r == Err(StopUnconfirmed)
         then c.current.Some? && ctrl.quarantine == c.quarantine + [Quarantined(c.current.value.plan.epoch, false)]
         else ctrl.quarantine == c.quarantine
    }

    ghost predicate Running(c: Ctrl, epoch: Epoch, spec: Spec, snapshot: Option<Snapshot>) {
      && c.current.Some? && snapshot.Some? && snapshot.value.Full(epoch).Some?
      && c.current.value.plan == Plan(epoch, 1, spec, snapshot.value.source, snapshot.value.Full(epoch).value)
      && c.lastSpec == Some(spec) && c.last == epoch
    }

    /** No process and no artifact of the epoch is left. */
    ghost predicate Gone(epoch: Epoch)
      reads host
    {
      && NoProcess(epoch)
      && epoch !in host.files.runtime && epoch !in host.pidFiles && forall k | k in host.files.backups :: k.0 != epoch
    }

    /** How an apply that got past its commit point ends: with a plan in the slot, or with
        an empty slot and the epoch quarantined exactly when a stop was not confirmed. */
    ghost predicate Concluded(c: Ctrl, r: Result<Outcome>, plan: Plan)
      reads this
    {
      && ctrl.last == c.last
      && (if r.Ok? then ctrl.current.Some? && r.value.revision == RevisionOf(ctrl.current.value.plan)
          else ctrl.current.None? && Late(r.error))
      && ctrl.quarantine == (if r == Err(StopUnconfirmed) then [Quarantined(plan.epoch, false)] else [])
    }

    predicate Stale(c: Ctrl, expected: Option<Revision>, terminal: bool) {
      c.current.Some? && !terminal && expected.Some? && expected.value != RevisionOf(c.current.value.plan)
    }

    /** The revision that is applied: a terminal core applies none. */
    function Effective(c: Ctrl, terminal: bool): Option<Revision> {
      if c.current.Some? && !terminal then Some(RevisionOf(c.current.value.plan)) else None
    }

    /** What each kind of success leaves in the slot. */
    ghost predicate Applied(c: Ctrl, o: Outcome, spec: Spec, snapshot: Snapshot)
      reads this
    {
      && c.current.Some? && ctrl.current.Some? && o.revision == RevisionOf(ctrl.current.value.plan)
      && ctrl.quarantine == []
      && var (was, now) := (c.current.value, ctrl.current.value);
      match o.kind
      case Noop => ctrl == c.(current := Some(was.(plan := was.plan.(spec := spec))), lastSpec := Some(spec))
      case Patched | Reloaded =>
        now.pid == was.pid && NextPlan(was.plan, now.plan, spec, snapshot) && ctrl.last == c.last
      case Restarted => NextPlan(was.plan, now.plan, spec, snapshot) && ctrl.last == c.last
      case Switched => Running(ctrl, c.last + 1, spec, Some(snapshot))
      case RolledBack => now.plan == was.plan
      case Started => false
    }

    ghost predicate NextPlan(was: Plan, now: Plan, spec: Spec, snapshot: Snapshot) {
      && snapshot.Full(was.epoch).Some?
      && now == Plan(was.epoch, was.generation + 1, spec, snapshot.source, snapshot.Full(was.epoch).value)
    }

    /** A failure leaves the slot as it was, with nothing launched, or empty. */
    ghost predicate Refused(c: Ctrl, launches: seq<Attempt>)
      reads this, host
    {
      || (ctrl.current == c.current && ctrl.quarantine == c.quarantine && host.procs.launches == launches)
      || ctrl.current.None?
    }

    constructor (host: Host, last: nat, decodes: Document -> bool)
      requires host.procs.launches == [] && host.pidFiles == map[] && FilesOk(host.files, last)
      ensures this.host == host && this.decodes == decodes && ctrl == Ctrl(last, None, None, []) && installs == []
      ensures Inv() <==> host.procs.live == map[]
    {
      this.host, this.decodes := host, decodes;
      ctrl := Ctrl(last, None, None, []);
      installs := [];
      new;
      if Inv() {
        NothingAlive(host.procs, ctrl);
      }
    }

    /** Ends what an earlier manager left: each process that a pid record names, and then all
        artifacts. Numbering starts past all of them. */
    static method Sweep(host: Host) returns (ok: bool, maxSeen: nat)
      modifies host
      ensures FilesOk(old(host.files), maxSeen) && UpTo(old(host.pidFiles).Keys, maxSeen)
      ensures host.procs == old(host.procs).(live := host.procs.live)
      ensures ok ==> Within(host.files, host.pidFiles, {})
      ensures ok ==> host.procs.live == old(host.procs).live - old(host.pidFiles).Values
    {
      hide OnlyRemoves;
      var discovered := host.files.runtime.Keys + host.pidFiles.Keys + (set k | k in host.files.backups :: k.0);
      maxSeen := Highest(discovered);
      var todo := discovered;
      ghost var reaped: set<Pid> := {};
      NoneReaped(host.pidFiles, discovered);
      while todo != {}
        invariant todo <= discovered && Within(host.files, host.pidFiles, todo)
        invariant host.procs == old(host.procs).(live := old(host.procs).live - reaped)
        invariant Reaping(old(host.pidFiles), host.pidFiles, todo, reaped)
        decreases todo
      {
        hide Within, Reaping;
        var epoch :| epoch in todo;
        ghost var files, records := host.files, host.pidFiles;
        ReapingNext(old(host.pidFiles), records, todo, reaped, epoch);
        if epoch in host.pidFiles {
          var outcome := host.Reap(epoch);
          ok := !outcome.ReapFailed?;
          if !ok {
            return;
          }
          ReapedTwice(old(host.procs).live, reaped, host.pidFiles[epoch]);
          reaped := reaped + {host.pidFiles[epoch]};
        }
        ok := *;
        if !ok {
          return;
        }
        ok := host.Cleanup(epoch);
        if !ok {
          return;
        }
        WithinShrinks(files, records, todo, host.files, host.pidFiles, epoch);
        todo := todo - {epoch};
      }
      AllReaped(old(host.pidFiles), host.pidFiles, reaped);
      ok := true;
    }

    /** A manager over whatever is there. It starts sound exactly when every process still
        alive was named by a pid record. */
    static method Build(host: Host, decodes: Document -> bool) returns (manager: Manager?)
      modifies host
      ensures manager != null ==> manager.host == host && fresh(manager) && manager.decodes == decodes
      ensures manager != null ==> manager.ctrl.current.None? && manager.ctrl.quarantine == []
      ensures manager != null ==> Within(host.files, host.pidFiles, {})
      ensures manager != null ==>
        FilesOk(old(host.files), manager.ctrl.last) && UpTo(old(host.pidFiles).Keys, manager.ctrl.last)
      ensures manager != null ==> host.procs.live == old(host.procs).live - old(host.pidFiles).Values
      ensures manager != null ==> (manager.Inv() <==> old(host.procs).live.Keys <= old(host.pidFiles).Values)
    {
      var ok, maxSeen := Sweep(host);
      if !ok {
        return null;
      }
      host.procs := host.procs.(launches := []);
      manager := new Manager(host, maxSeen, decodes);
      NoneLeft(old(host.procs).live, old(host.pidFiles).Values);
    }

    /** A manager that dies between two steps of any transaction leaves only processes that
        pid records name, so the one that follows it starts with nothing alive. */
    static method Succeed(dead: Manager, ghost hand: set<Epoch>) returns (manager: Manager?)
      requires dead.Sound(hand)
      modifies dead.host
      ensures manager != null ==> fresh(manager) && manager.host == dead.host && manager.Inv()
      ensures manager != null ==> dead.host.procs.live == map[] && Within(dead.host.files, dead.host.pidFiles, {})
    {
      hide Manager.Sound, Manager.Inv, Within;
      NoStrays(dead, hand);
      manager := Build(dead.host, dead.decodes);
    }

    static lemma NoStrays(dead: Manager, hand: set<Epoch>)
      requires dead.Sound(hand)
      ensures dead.host.procs.live.Keys <= dead.host.pidFiles.Values
      ensures dead.host.procs.live - dead.host.pidFiles.Values == map[]
    {
      hide ProcsOk, ListsOk, FilesOk, InstallsOk;
      var live, records := dead.host.procs.live, dead.host.pidFiles;
      forall p | p in live ensures p in records.Values {
        assert records[live[p]] == p;
      }
    }

    lemma SlotEpochIsKnown()
      requires Sound({}) && ctrl.current.Some?
      ensures ctrl.current.value.plan.epoch <= ctrl.last
    {
    }

    lemma HeldApart(epoch: Epoch)
      requires Sound({}) && ctrl.current.Some? && ctrl.current.value.plan.epoch == epoch
      ensures epoch !in Epochs(ctrl.quarantine)
    {
    }

    lemma GoneWhen(epoch: Epoch)
      requires NoProcess(epoch)
      ensures var bare := epoch !in host.files.runtime && epoch !in host.pidFiles;
        bare && (forall k | k in host.files.backups :: k.0 != epoch) ==> Gone(epoch)
    {
    }

    lemma NoneOf(epoch: Epoch, hand: set<Epoch>)
      requires Sound(hand) && epoch !in SlotEpoch(ctrl) + Epochs(ctrl.quarantine) + hand
      ensures NoProcess(epoch)
    {
      EpochIsFree(host.procs, ctrl, hand, epoch);
    }

    ghost predicate NoProcess(epoch: Epoch)
      reads host
    {
      forall p | p in host.procs.live :: host.procs.live[p] != epoch
    }

    // ---------- Steps ----------

    method Allocate(ghost hand: set<Epoch>) returns (epoch: Epoch)
      requires Sound(hand)
      modifies `ctrl
      ensures ctrl == old(ctrl).(last := epoch) && epoch == old(ctrl).last + 1
      ensures Sound(hand) && epoch !in SlotEpoch(ctrl) + Epochs(ctrl.quarantine) + hand && epoch !in host.files.runtime
      ensures installs == [] || installs[|installs| - 1].plan.epoch < epoch
    {
      InstallsOutlast(installs, ctrl.last, ctrl.last + 1);
      ctrl := ctrl.(last := ctrl.last + 1);
      epoch := ctrl.last;
    }

    /** Takes the epoch out of the slot and stops its process. */
    method Retire(ghost hand: set<Epoch>) returns (r: Retired)
      requires Sound(hand)
      modifies `ctrl, host`procs
      ensures ctrl == old(ctrl).(current := None) && host.procs.launches == old(host.procs).launches
      ensures r.Nothing? <==> old(ctrl).current.None?
      ensures r.Done? ==> r.plan == old(ctrl).current.value.plan
      ensures r.NotProven? ==> r.epoch == old(ctrl).current.value.plan.epoch
      ensures Sound(if r.NotProven? && r.unconfirmed then hand + {r.epoch} else hand)
      ensures forall p | p in old(host.procs).live && old(host.procs).live[p] in hand ::
        p in host.procs.live && host.procs.live[p] == old(host.procs).live[p]
    {
      hide ProcsOk, ListsOk, InstallsOk;
      if ctrl.current.None? {
        return Nothing;
      }
      var active := ctrl.current.value;
      SlotIsRunning(host.procs, ctrl, hand);
      TakeKeeps(host.procs, ctrl, hand);
      ctrl := ctrl.(current := None);
      assert hand + {active.plan.epoch} - {active.plan.epoch} == hand;
      var outcome := StopInstance(active.pid, active.plan.epoch, hand + {active.plan.epoch});
      match outcome
      case Stopped => r := Done(active.plan);
      case Unconfirmed => r := NotProven(active.plan.epoch, true);
      case StopFailed => r := NotProven(active.plan.epoch, false);
    }

    method StopInstance(pid: Pid, epoch: Epoch, ghost hand: set<Epoch>) returns (outcome: StopOutcome)
      requires Sound(hand) && epoch in hand && pid in host.procs.live && host.procs.live[pid] == epoch
      modifies host`procs
      ensures host.procs.launches == old(host.procs).launches
      ensures Sound(if outcome.Unconfirmed? then hand else hand - {epoch})
      ensures host.procs.live == if outcome.Unconfirmed? then old(host.procs).live else old(host.procs).live - {pid}
      ensures forall e | old(Gone(e)) :: Gone(e)
    {
      hide ProcsOk, ListsOk, InstallsOk;
      DeathKeeps(host.procs, ctrl, hand, pid, epoch);
      outcome := host.Stop(pid);
    }

    /** Adds the epoch unless it is already there. */
    method Record(epoch: Epoch)
      modifies `ctrl
      ensures ctrl == if epoch in Epochs(old(ctrl).quarantine) then old(ctrl)
                      else old(ctrl).(quarantine := old(ctrl).quarantine + [Quarantined(epoch, false)])
    {
      if forall i | 0 <= i < |ctrl.quarantine| :: ctrl.quarantine[i].epoch != epoch {
        ctrl := ctrl.(quarantine := ctrl.quarantine + [Quarantined(epoch, false)]);
      }
    }

    /** Hands an epoch whose process may be alive over to the quarantine. */
    method Latch(epoch: Epoch, ghost hand: set<Epoch>)
      requires Sound(hand) && epoch in hand
      modifies `ctrl
      ensures ctrl == old(ctrl).(quarantine := old(ctrl).quarantine + [Quarantined(epoch, false)])
      ensures Sound(hand - {epoch}) && Epochs(ctrl.quarantine) == Epochs(old(ctrl).quarantine) + {epoch}
    {
      hide ProcsOk, InstallsOk;
      LatchKeeps(host.procs, ctrl, hand, epoch);
      Record(epoch);
    }

    function SlotPid(): Option<Pid>
      reads `ctrl
    {
      if ctrl.current.Some? then Some(ctrl.current.value.pid) else None
    }

    method Launch(epoch: Epoch, document: Document, bootstrap: bool, ghost hand: set<Epoch>) returns (pid: Option<Pid>)
      requires Sound(hand) && epoch <= ctrl.last && epoch !in SlotEpoch(ctrl) + Epochs(ctrl.quarantine) + hand
      requires Lookup(host.files.runtime, epoch) == Some(document)
      requires host.procs.live.Keys <= (if bootstrap && ctrl.current.Some? then {ctrl.current.value.pid} else {})
      requires bootstrap ==> Harmless(document)
      modifies host`procs, host`pidFiles
      ensures Sound(if pid.Some? then hand + {epoch} else hand)
      ensures pid.Some? ==>
        host.procs.live == old(host.procs).live[pid.value := epoch] && pid.value !in old(host.procs).live
      ensures pid.None? ==> host.procs.live == old(host.procs).live
      ensures host.procs.launches == old(host.procs).launches
        + [Attempt(epoch, document, Some(document), old(host.procs).live.Keys, bootstrap, SlotPid())]
      ensures forall e | e != epoch && old(Gone(e)) :: Gone(e)
    {
      hide ProcsOk, RecordsOk, ListsOk, InstallsOk, Harmless, AttemptOk;
      ghost var a := Attempt(epoch, document, Some(document), host.procs.live.Keys, bootstrap, SlotPid());
      AttemptIsOk(a);
      LaunchKeeps(host.procs, ctrl, hand, a);
      EpochIsFree(host.procs, ctrl, hand, epoch);
      LaunchRecorded(host.procs, host.pidFiles, epoch, host.procs.launches + [a]);
      pid := host.Launch(epoch, document, bootstrap, SlotPid());
    }

    /** Starts a plan's process and waits for it; one that does not become ready is stopped. */
    method SpawnReplacement(plan: Plan) returns (r: Spawned)
      requires Sound({}) && ctrl.current.None? && ctrl.quarantine == [] && plan.epoch <= ctrl.last && OnDisk(plan)
      modifies host`procs, host`pidFiles
      ensures old(host.procs).launches <= host.procs.launches
      ensures Sound(if r.Rejected? then {} else {plan.epoch})
      ensures r.Ready? ==> r.pid in host.procs.live && host.procs.live[r.pid] == plan.epoch
      ensures forall e | e != plan.epoch && old(Gone(e)) :: Gone(e)
    {
      hide ProcsOk, ListsOk, InstallsOk;
      NothingAlive(host.procs, ctrl);
      var pid := Launch(plan.epoch, plan.document, false, {});
      if pid.None? {
        return Rejected;
      }
      assert {} + {plan.epoch} == {plan.epoch} && {plan.epoch} - {plan.epoch} == {};
      var ready: bool := *;
      if ready {
        return Ready(pid.value);
      }
      var outcome := StopInstance(pid.value, plan.epoch, {plan.epoch});
      if outcome.Stopped? {
        return Rejected;
      }
      // Any error of this stop counts as unconfirmed, even one that proves the process dead.
      if outcome.StopFailed? {
        HandGrows(host.procs, ctrl, {}, plan.epoch);
      }
      return Lost;
    }

    /** The one place an epoch enters the slot. */
    method Install(pid: Pid, plan: Plan, rollback: bool, ghost hand: set<Epoch>)
      requires Sound(hand) && ctrl.current.None? && plan.epoch in hand && OnDisk(plan)
      requires pid in host.procs.live && host.procs.live[pid] == plan.epoch
      requires if rollback then LastInstalled(installs, plan) else NewRevision(installs, plan)
      modifies this
      ensures ctrl == old(ctrl).(current := Some(Active(pid, plan)), lastSpec := Some(plan.spec))
      ensures installs == old(installs) + [CoreLedger.Install(plan, Some(plan.document), rollback)]
      ensures Sound(hand - {plan.epoch}) && LastInstalled(installs, plan)
    {
      hide ProcsOk;
      InstallKeeps(host.procs, ctrl, hand, pid, plan);
      InstallsSnoc(installs, ctrl.last, CoreLedger.Install(plan, Some(plan.document), rollback));
      ctrl := ctrl.(current := Some(Active(pid, plan)), lastSpec := Some(plan.spec));
      installs := installs + [CoreLedger.Install(plan, Some(plan.document), rollback)];
    }

    method Cleanup(epoch: Epoch, ghost hand: set<Epoch>) returns (ok: bool)
      requires Sound(hand) && NoProcess(epoch)
      modifies host`files, host`pidFiles
      ensures Sound(hand) && OnlyRemoves(old(host.files), host.files, epoch)
      ensures forall e | e != epoch :: Lookup(host.files.runtime, e) == Lookup(old(host.files).runtime, e)
      ensures host.pidFiles == old(host.pidFiles) || host.pidFiles == old(host.pidFiles) - {epoch}
      ensures ok ==>
        epoch !in host.files.runtime && epoch !in host.pidFiles && forall k | k in host.files.backups :: k.0 != epoch
      ensures forall e | old(Gone(e)) :: Gone(e)
    {
      hide ProcsOk, ListsOk, InstallsOk;
      ok := host.Cleanup(epoch);
      RemovalKeeps(old(host.files), host.files, epoch, ctrl.last);
    }

    /** Renders, stages, checks and commits the document of a fresh epoch. A failure may
        leave the document behind; nothing else changes. */
    method PrepareLaunch(spec: Spec, epoch: Epoch, snapshot: Snapshot, ghost hand: set<Epoch>)
        returns (plan: Option<Plan>)
      requires Sound(hand) && epoch <= ctrl.last
      modifies host`files
      ensures Sound(hand) && host.files.backups == old(host.files).backups
      ensures forall e | e != epoch :: Lookup(host.files.runtime, e) == Lookup(old(host.files).runtime, e)
      ensures plan.Some? ==> snapshot.Full(epoch).Some? && OnDisk(plan.value)
      ensures plan.Some? ==> plan.value == Plan(epoch, 1, spec, snapshot.source, snapshot.Full(epoch).value)
      ensures forall e | e != epoch && old(Gone(e)) :: Gone(e)
    {
      hide ProcsOk, ListsOk, InstallsOk, Snapshot.Full;
      var document := snapshot.Full(epoch);
      var accepted: bool := *;
      if document.None? || !accepted {
        return None;
      }
      var ok := host.CommitNew(epoch, document.value);
      return if ok then Some(Plan(epoch, 1, spec, snapshot.source, document.value)) else None;
    }

    // ---------- Start and stop ----------

    /** A terminal epoch still in the slot is retired and cleaned before the slot is reused. */
    method DiscardStale() returns (r: Result<()>)
      requires Inv()
      modifies `ctrl, host
      ensures Inv() && ctrl.current.None? && host.procs.launches == old(host.procs).launches
      ensures Gathered(old(ctrl), r) && (r.Ok? || r == Err(StopUnconfirmed) || r == Err(Failed))
      ensures ctrl == old(ctrl).(current := None, quarantine := ctrl.quarantine)
      ensures r.Ok? && old(ctrl).current.Some? ==> Gone(old(ctrl).current.value.plan.epoch)
      ensures old(ctrl).current.None? ==> r.Ok?
    {
      hide Sound, Gone;
      if ctrl.current.Some? {
        HeldApart(ctrl.current.value.plan.epoch);
      }
      var retired := Retire({});
      match retired
      case Nothing => r := Ok(());
      case Done(plan) =>
        NoneOf(plan.epoch, {});
        var ok := Cleanup(plan.epoch, {});
        GoneWhen(plan.epoch);
        r := if ok then Ok(()) else Err(Failed);
      case NotProven(epoch, unconfirmed) =>
        if unconfirmed {
          assert {} + {epoch} == {epoch} && {epoch} - {epoch} == {};
          Latch(epoch, {epoch});
          r := Err(StopUnconfirmed);
        } else {
          r := Err(Failed);
        }
    }

    method StartPrepared(plan: Plan) returns (r: Result<()>)
      requires Inv() && ctrl.current.None? && ctrl.quarantine == [] && plan.epoch <= ctrl.last
      requires OnDisk(plan) && NewRevision(installs, plan)
      modifies this, host
      ensures Inv() && old(host.procs).launches <= host.procs.launches
      ensures ctrl == old(ctrl).(current := ctrl.current, lastSpec := ctrl.lastSpec, quarantine := ctrl.quarantine)
      ensures installs == old(installs) + if r.Ok? then [CoreLedger.Install(plan, Some(plan.document), false)] else []
      ensures if r.Ok? then ctrl.current.Some? && ctrl.current.value.plan == plan && ctrl.lastSpec == Some(plan.spec)
              else ctrl.current.None? && ctrl.lastSpec == old(ctrl).lastSpec
      ensures ctrl.quarantine == if r == Err(StopUnconfirmed) then [Quarantined(plan.epoch, false)] else []
      ensures r.Ok? || r == Err(StopUnconfirmed) || r == Err(Failed)
      ensures forall e | e != plan.epoch && old(Gone(e)) :: Gone(e)
    {
      hide Sound, Gone;
      var spawned := SpawnReplacement(plan);
      assert {plan.epoch} - {plan.epoch} == {};
      match spawned
      case Ready(pid) =>
        Install(pid, plan, false, {plan.epoch});
        r := Ok(());
      case Rejected =>
        NoneOf(plan.epoch, {});
        var _ := Cleanup(plan.epoch, {});
        r := Err(Failed);
      case Lost =>
        Latch(plan.epoch, {plan.epoch});
        r := Err(StopUnconfirmed);
    }

    method StartLocked(spec: Spec, snapshot: Option<Snapshot>) returns (r: Result<()>)
      requires Inv() && ctrl.current.None? && ctrl.quarantine == []
      modifies this, host
      ensures Inv() && Onward(old(ctrl), old(host.procs).launches, old(installs))
      ensures r.Ok? ==> Running(ctrl, old(ctrl).last + 1, spec, snapshot) && ctrl.quarantine == []
      ensures r.Err? ==> ctrl.current.None? && installs == old(installs)
      ensures r.Err? ==> ctrl.quarantine == if r == Err(StopUnconfirmed) then [Quarantined(ctrl.last, false)] else []
      ensures r.Ok? || r == Err(StopUnconfirmed) || r == Err(Failed)
      ensures forall e: Epoch | e <= old(ctrl).last && old(Gone(e)) :: Gone(e)
    {
      hide Sound, Gone, Snapshot.Full;
      var epoch := Allocate({});
      if snapshot.None? {
        return Err(Failed);
      }
      var plan := PrepareLaunch(spec, epoch, snapshot.value, {});
      if plan.None? {
        NoneOf(epoch, {});
        var _ := Cleanup(epoch, {});
        return Err(Failed);
      }
      r := StartPrepared(plan.value);
    }

    /** Starts a core; a terminal one in the slot is cleared away first. */
    method Start(spec: Spec, snapshot: Option<Snapshot>, terminal: bool) returns (r: Result<()>)
      requires Inv()
      modifies this, host
      ensures Inv() && Onward(old(ctrl), old(host.procs).launches, old(installs))
      ensures r == Err(Gated) <==> old(ctrl).quarantine != []
      ensures r == Err(AlreadyRunning) <==> old(ctrl).quarantine == [] && old(ctrl).current.Some? && !terminal
      ensures r == Err(Gated) || r == Err(AlreadyRunning) ==> unchanged(this) && unchanged(host)
      ensures r.Ok? ==> Running(ctrl, old(ctrl).last + 1, spec, snapshot) && ctrl.quarantine == []
      ensures r.Err? && r != Err(Gated) && r != Err(AlreadyRunning) ==> ctrl.current.None? && installs == old(installs)
      ensures r.Ok? && old(ctrl).current.Some? ==> Gone(old(ctrl).current.value.plan.epoch)
    {
      hide Sound, Gone;
      if ctrl.quarantine != [] {
        return Err(Gated);
      }
      if ctrl.current.Some? && !terminal {
        return Err(AlreadyRunning);
      }
      if ctrl.current.Some? {
        SlotEpochIsKnown();
      }
      r := DiscardStale();
      if r.Ok? {
        r := StartLocked(spec, snapshot);
      }
    }

    /** Stops the slot's process whether or not other epochs are quarantined. A terminal
        one is cleared away too, but reported as not started. */
    method Stop(terminal: bool) returns (r: Result<()>)
      requires Inv()
      modifies `ctrl, host
      ensures Inv() && Onward(old(ctrl), old(host.procs).launches, installs)
      ensures host.procs.launches == old(host.procs).launches
      ensures ctrl.current.None? && ctrl == old(ctrl).(current := None, quarantine := ctrl.quarantine)
      ensures Gathered(old(ctrl), r)
      ensures r.Ok? ==> old(ctrl).current.Some? && !terminal && Gone(old(ctrl).current.value.plan.epoch)
      ensures r == Err(NotStarted) && old(ctrl).current.Some? ==> terminal && Gone(old(ctrl).current.value.plan.epoch)
    {
      hide Sound, Gone;
      if ctrl.current.None? {
        return Err(NotStarted);
      }
      EpochsSnoc(ctrl.quarantine, ctrl.current.value.plan.epoch);
      r := DiscardStale();
      if r.Ok? {
        return if terminal then Err(NotStarted) else Ok(());
      }
    }

    /** Like `Stop`, except that an empty slot is fine and a terminal one is not reported. */
    method Shutdown() returns (r: Result<()>)
      requires Inv()
      modifies `ctrl, host
      ensures Inv() && Onward(old(ctrl), old(host.procs).launches, installs)
      ensures host.procs.launches == old(host.procs).launches
      ensures ctrl.current.None? && ctrl == old(ctrl).(current := None, quarantine := ctrl.quarantine)
      ensures Gathered(old(ctrl), r) && (old(ctrl).current.None? ==> r.Ok?)
      ensures r.Ok? && old(ctrl).current.Some? ==> Gone(old(ctrl).current.value.plan.epoch)
    {
      hide Sound, Gone;
      if ctrl.current.Some? {
        EpochsSnoc(ctrl.quarantine, ctrl.current.value.plan.epoch);
      }
      r := DiscardStale();
    }

    // ---------- Apply ----------

    /** A patched or reloaded process carries the next plan of its epoch. */
    method Replan(plan: Plan)
      requires Sound({}) && ctrl.current.Some? && plan.epoch == ctrl.current.value.plan.epoch
      requires OnDisk(plan) && NewRevision(installs, plan)
      modifies this
      ensures Inv()
      ensures ctrl == old(ctrl).(current := Some(old(ctrl).current.value.(plan := plan)), lastSpec := Some(plan.spec))
      ensures installs == old(installs) + [CoreLedger.Install(plan, Some(plan.document), false)]
    {
      hide ProcsOk;
      ReplanKeeps(host.procs, ctrl, {}, plan, Some(plan.spec));
      InstallsSnoc(installs, ctrl.last, CoreLedger.Install(plan, Some(plan.document), false));
      ctrl := ctrl.(current := Some(ctrl.current.value.(plan := plan)), lastSpec := Some(plan.spec));
      installs := installs + [CoreLedger.Install(plan, Some(plan.document), false)];
    }

    /** Relaunches the plan that was retired, in front of its own document. */
    method RollBack(plan: Plan) returns (r: Result<Outcome>)
      requires Sound({}) && ctrl.current.None? && ctrl.quarantine == [] && plan.epoch <= ctrl.last
      requires OnDisk(plan) && LastInstalled(installs, plan)
      modifies this, host
      ensures Inv() && Concluded(old(ctrl), r, plan) && old(installs) <= installs
      ensures old(host.procs).launches <= host.procs.launches
      ensures host.files == old(host.files)
      ensures r.Ok? ==>
        r.value.kind == RolledBack && ctrl.current.value.plan == plan && ctrl.lastSpec == Some(plan.spec)
    {
      hide Sound, Gone;
      var spawned := SpawnReplacement(plan);
      assert {plan.epoch} - {plan.epoch} == {};
      match spawned
      case Ready(pid) =>
        Install(pid, plan, true, {plan.epoch});
        r := Ok(Outcome(RolledBack, RevisionOf(plan)));
      case Rejected =>
        r := Err(RollbackFailed);
      case Lost =>
        Latch(plan.epoch, {plan.epoch});
        r := Err(StopUnconfirmed);
    }

    /** Replaces the process inside its epoch, after the desired document took the place of
        the current one, whose bytes are in the backup. */
    method RestartWithCompensation(desired: Plan) returns (r: Result<Outcome>)
      requires Sound({}) && ctrl.current.Some? && ctrl.quarantine == []
      requires LastInstalled(installs, ctrl.current.value.plan)
      requires desired.epoch == ctrl.current.value.plan.epoch && OnDisk(desired) && NewRevision(installs, desired)
      requires (desired.epoch, desired.generation) in host.files.backups
      requires host.files.backups[(desired.epoch, desired.generation)] == ctrl.current.value.plan.document
      modifies this, host
      ensures Inv() && Concluded(old(ctrl), r, desired) && old(installs) <= installs
      ensures old(host.procs).launches <= host.procs.launches
      ensures r.Ok? ==> if r.value.kind == Restarted then ctrl.current.value.plan == desired
                        else r.value.kind == RolledBack && ctrl.current.value.plan == old(ctrl).current.value.plan
    {
      hide Sound, Gone;
      SlotEpochIsKnown();
      var retired := Retire({});
      assert !retired.Nothing?;
      assert {} + {desired.epoch} == {desired.epoch} && {desired.epoch} - {desired.epoch} == {};
      if retired.NotProven? {
        if retired.unconfirmed {
          Latch(desired.epoch, {desired.epoch});
          return Err(StopUnconfirmed);
        }
        return Err(Failed);
      }
      var spawned := SpawnReplacement(desired);
      match spawned
      case Ready(pid) =>
        Install(pid, desired, false, {desired.epoch});
        DropBackup(desired.epoch, desired.generation, {});
        r := Ok(Outcome(Restarted, RevisionOf(desired)));
      case Lost =>
        Latch(desired.epoch, {desired.epoch});
        r := Err(StopUnconfirmed);
      case Rejected =>
        var restored := RestoreBackup(desired.epoch, desired.generation, {});
        if !restored {
          return Err(RollbackFailed);
        }
        r := RollBack(retired.plan);
        if r.Ok? {
          DropBackup(desired.epoch, desired.generation, {});
        }
    }

    method DropBackup(epoch: Epoch, generation: nat, ghost hand: set<Epoch>)
      requires Sound(hand)
      modifies host`files
      ensures Sound(hand) && host.files.runtime == old(host.files).runtime
    {
      var _ := host.RemoveBackup(epoch, generation);
    }

    method RestoreBackup(epoch: Epoch, generation: nat, ghost hand: set<Epoch>) returns (ok: bool)
      requires Sound(hand) && epoch <= ctrl.last
      modifies host`files
      ensures Sound(hand)
      ensures ok ==> (epoch, generation) in old(host.files).backups
      ensures ok ==> Lookup(host.files.runtime, epoch) == Some(old(host.files).backups[(epoch, generation)])
    {
      ok := host.Restore(epoch, generation);
    }

    /** Stops the old epoch and starts a new one; when that fails, the old one comes back. */
    method SwitchWithCompensation(spec: Spec, snapshot: Snapshot) returns (r: Result<Outcome>)
      requires Inv() && ctrl.current.Some? && ctrl.quarantine == []
      modifies this, host
      ensures Inv() && Onward(old(ctrl), old(host.procs).launches, old(installs))
      ensures r.Ok? ==>
        (r.value.kind == Switched || r.value.kind == RolledBack) && Applied(old(ctrl), r.value, spec, snapshot)
      ensures r.Err? ==> Refused(old(ctrl), old(host.procs).launches) && Late(r.error)
      ensures r == Err(StopUnconfirmed) <==> ctrl.quarantine != []
    {
      hide Sound, OnlyRemoves, Gone, Snapshot.Full;
      var epoch := Allocate({});
      var desired := PrepareLaunch(spec, epoch, snapshot, {});
      if desired.None? {
        return Err(Failed);
      }
      var retired := Retire({});
      assert !retired.Nothing?;
      if retired.NotProven? {
        assert {} + {retired.epoch} == {retired.epoch};
        r := AbandonSwitch(epoch, retired);
        return;
      }
      r := SwitchOver(retired.plan, desired.value);
    }

    /** Starts the desired epoch in the emptied slot, or else the old plan again. */
    method SwitchOver(was: Plan, desired: Plan) returns (r: Result<Outcome>)
      requires Sound({}) && ctrl.current.None? && ctrl.quarantine == [] && was.epoch != desired.epoch
      requires was.epoch <= ctrl.last && OnDisk(was) && LastInstalled(installs, was)
      requires desired.epoch <= ctrl.last && OnDisk(desired) && NewRevision(installs, desired)
      modifies this, host
      ensures Inv() && old(installs) <= installs && old(host.procs).launches <= host.procs.launches
      ensures ctrl.last == old(ctrl).last
      ensures r == Err(StopUnconfirmed) <==> ctrl.quarantine != []
      ensures r.Err? ==> ctrl.current.None? && Late(r.error)
      ensures r.Ok? ==> ctrl.current.Some? && r.value.revision == RevisionOf(ctrl.current.value.plan)
      ensures r.Ok? ==> (r.value.kind == Switched || r.value.kind == RolledBack)
      ensures r.Ok? ==> ctrl.current.value.plan == (if r.value.kind == Switched then desired else was)
      ensures r.Ok? ==> ctrl.lastSpec == Some(ctrl.current.value.plan.spec)
    {
      hide Sound, OnlyRemoves, Gone;
      var epoch := desired.epoch;
      var spawned := SpawnReplacement(desired);
      assert {} + {epoch} == {epoch} && {epoch} - {epoch} == {};
      match spawned
      case Ready(pid) =>
        Install(pid, desired, false, {epoch});
        NoneOf(was.epoch, {});
        var _ := Cleanup(was.epoch, {});
        r := Ok(Outcome(Switched, RevisionOf(desired)));
      case Lost =>
        Latch(epoch, {epoch});
        r := Err(StopUnconfirmed);
      case Rejected =>
        NoneOf(epoch, {});
        var _ := Cleanup(epoch, {});
        r := RollBack(was);
    }

    /** The old epoch did not stop cleanly: the prepared one is dropped. */
    method AbandonSwitch<T>(epoch: Epoch, retired: Retired) returns (r: Result<T>)
      requires retired.NotProven? && Sound(if retired.unconfirmed then {retired.epoch} else {})
      requires epoch != retired.epoch
      requires ctrl.current.None? && ctrl.quarantine == []
      modifies `ctrl, host`files, host`pidFiles
      ensures Inv() && r.Err? && (r == Err(StopUnconfirmed) || r == Err(Failed))
      ensures ctrl == old(ctrl).(quarantine := if retired.unconfirmed then [Quarantined(retired.epoch, false)] else [])
      ensures r == Err(StopUnconfirmed) <==> retired.unconfirmed
    {
      hide Sound, Gone;
      ghost var hand := if retired.unconfirmed then {retired.epoch} else {};
      NoneOf(epoch, hand);
      var _ := Cleanup(epoch, hand);
      if retired.unconfirmed {
        assert {retired.epoch} - {retired.epoch} == {};
        Latch(retired.epoch, {retired.epoch});
        return Err(StopUnconfirmed);
      }
      return Err(Failed);
    }

    /** Renders, stages and checks the next document of the running epoch. */
    method PrepareApply(spec: Spec, snapshot: Snapshot) returns (plan: Option<Plan>)
      requires ctrl.current.Some?
      ensures plan.Some? ==> NextPlan(ctrl.current.value.plan, plan.value, spec, snapshot)
    {
      var was := ctrl.current.value.plan;
      var document := snapshot.Full(was.epoch);
      var accepted: bool := *;
      return if document.None? || !accepted then None
                   else Some(Plan(was.epoch, was.generation + 1, spec, snapshot.source, document.value));
    }

    /** Saves the current document and puts the desired one in its place, or leaves the
        current one where it is. */
    method CommitApply(desired: Plan) returns (ok: bool)
      requires Inv() && ctrl.current.Some? && desired.epoch == ctrl.current.value.plan.epoch
      modifies host`files
      ensures if ok then Sound({}) && OnDisk(desired) else Inv()
      ensures ok ==> (desired.epoch, desired.generation) in host.files.backups
      ensures ok ==> host.files.backups[(desired.epoch, desired.generation)] == ctrl.current.value.plan.document
    {
      hide ProcsOk, ListsOk, InstallsOk;
      ok := host.Backup(desired.epoch, desired.generation);
      if ok {
        ok := host.CommitReplace(desired.epoch, desired.document);
        if !ok {
          var _ := host.RemoveBackup(desired.epoch, desired.generation);
        }
      }
    }

    /** What the classification says about replacing `was` by the rendered snapshot. */
    ghost function ChangeOf(was: Plan, spec: Spec, snapshot: Snapshot): ConfigPatch.Change
      requires snapshot.Full(was.epoch).Some?
    {
      ConfigBootstrap.Classification(ViewOf(was), ConfigBootstrap.View(snapshot.source, snapshot.Full(was.epoch).value),
                                     ProcessChanged(was.spec, spec), spec.kind.Mihomo?, decodes)
    }

    /** The outcome is of a kind that the change calls for. */
    static predicate Fits(kind: Kind, change: ConfigPatch.Change) {
      match kind
      case Noop => change.Noop?
      case Patched => change.Patch?
      case Reloaded => change.Reload?
      case Restarted => change.Patch? || change.Reload?
      case Switched => change.Switch?
      case RolledBack => change.Patch? || change.Reload? || change.Switch?
      case Started => false
    }

    /** A change that is none, or a patch, says what it takes to get from one to the other. */
    ghost predicate Means(change: ConfigPatch.Change, was: Document, rendered: Document) {
      && (change.Noop? ==> was == rendered)
      && (change.Patch? ==> ConfigPatch.Overlay(was, change.document) == rendered)
    }

    /** Compares the running plan with the desired one. */
    method ClassifyPlans(was: Plan, desired: Plan) returns (change: ConfigPatch.Change)
      ensures change ==
        ConfigBootstrap.Classification(ViewOf(was), ViewOf(desired), ProcessChanged(was.spec, desired.spec),
                                                       desired.spec.kind.Mihomo?, decodes)
      ensures Means(change, was.document, desired.document)
    {
      change := ConfigBootstrap.Classify(ViewOf(was), ViewOf(desired), ProcessChanged(was.spec, desired.spec),
                                         desired.spec.kind.Mihomo?, decodes);
      if change.Patch? {
        hide ConfigPatch.Classified, ConfigPatch.Overlay;
        ConfigPatch.PatchRebuilds(was.document, desired.document, decodes);
      }
    }

    /** Carries out the change that the classification called for. */
    method Perform(change: ConfigPatch.Change, desired: Plan, spec: Spec, snapshot: Snapshot)
        returns (r: Result<Outcome>)
      requires Inv() && ctrl.current.Some? && ctrl.quarantine == []
      requires NextPlan(ctrl.current.value.plan, desired, spec, snapshot)
      modifies this, host
      ensures Inv() && Onward(old(ctrl), old(host.procs).launches, old(installs))
      ensures r.Ok? ==> Applied(old(ctrl), r.value, spec, snapshot) && Fits(r.value.kind, change)
      ensures r.Ok? && r.value.kind in {Noop, Patched, Reloaded} ==> host.procs == old(host.procs)
      ensures r.Ok? && r.value.kind == Noop ==> unchanged(host) && installs == old(installs)
      ensures r.Err? ==> Refused(old(ctrl), old(host.procs).launches) && Late(r.error)
      ensures r == Err(StopUnconfirmed) <==> ctrl.quarantine != []
    {
      hide Sound, Gone, Snapshot.Full;
      match change
      case Invalid =>
        r := Err(Failed);
      case Noop =>
        var actual := RevisionOf(ctrl.current.value.plan);
        AdoptSpec(spec);
        r := Ok(Outcome(Noop, actual));
      case Switch =>
        r := SwitchWithCompensation(spec, snapshot);
      case Patch(_) =>
        r := ApplyInPlace(desired, true);
      case Reload =>
        r := ApplyInPlace(desired, false);
    }

    /** The running-core apply transaction. */
    method ApplyLocked(spec: Spec, snapshot: Option<Snapshot>, expected: Option<Revision>, terminal: bool)
        returns (r: Result<Outcome>)
      requires Inv() && ctrl.quarantine == []
      modifies this, host
      ensures Inv() && Onward(old(ctrl), old(host.procs).launches, old(installs))
      ensures r == Err(NotStarted) <==> old(ctrl).current.None? || terminal
      ensures r.Err? && r.error.RevisionConflict? <==> Stale(old(ctrl), expected, terminal)
      ensures r == Err(NotStarted) || (r.Err? && r.error.RevisionConflict?) ==> unchanged(this) && unchanged(host)
      ensures r.Ok? && r.value.kind in {Noop, Patched, Reloaded} ==> host.procs == old(host.procs)
      ensures r.Ok? && r.value.kind == Noop ==> unchanged(host) && installs == old(installs)
      ensures r.Err? ==> Refused(old(ctrl), old(host.procs).launches)
      ensures r.Err? ==> r.error.NotStarted? || r.error.RevisionConflict? || Late(r.error)
      ensures r == Err(StopUnconfirmed) <==> ctrl.quarantine != []
      ensures r.Ok? ==> snapshot.Some? && Applied(old(ctrl), r.value, spec, snapshot.value)
      ensures r.Ok? ==> AsClassified(old(ctrl), r.value.kind, spec, snapshot)
    {
      hide Sound, Gone, ConfigBootstrap.Classification, Means, Fits, Applied, AsClassified, Snapshot.Full;
      if ctrl.current.None? || terminal {
        return Err(NotStarted);
      }
      var actual := RevisionOf(ctrl.current.value.plan);
      if expected.Some? && expected.value != actual {
        return Err(RevisionConflict(expected.value, Some(actual)));
      }
      if snapshot.None? {
        return Err(Failed);
      }
      var desired := PrepareApply(spec, snapshot.value);
      if desired.None? {
        return Err(Failed);
      }
      var change := ClassifyPlans(ctrl.current.value.plan, desired.value);
      r := Perform(change, desired.value, spec, snapshot.value);
      if r.Ok? {
        NowClassified(old(ctrl), r.value.kind, spec, snapshot.value, desired.value, change);
      }
    }

    ghost predicate AsClassified(c: Ctrl, kind: Kind, spec: Spec, snapshot: Option<Snapshot>) {
      && c.current.Some? && snapshot.Some?
      && var was := c.current.value.plan;
         var rendered := snapshot.value.Full(was.epoch);
         rendered.Some? &&
         var change := ChangeOf(was, spec, snapshot.value);
         Fits(kind, change) && Means(change, was.document, rendered.value)
    }

    lemma NowClassified(c: Ctrl, kind: Kind, spec: Spec, snapshot: Snapshot, desired: Plan, change: ConfigPatch.Change)
      requires c.current.Some? && NextPlan(c.current.value.plan, desired, spec, snapshot) && Fits(kind, change)
      requires var was := c.current.value.plan;
        && change ==
              ConfigBootstrap.Classification(ViewOf(was), ViewOf(desired), ProcessChanged(was.spec, desired.spec),
                                                    desired.spec.kind.Mihomo?, decodes)
        && Means(change, was.document, desired.document)
      ensures AsClassified(c, kind, spec, Some(snapshot))
    {
      hide ConfigBootstrap.Classification, Means, Fits;
    }

    /** The input is kept for explicit restarts without touching the revision. */
    method AdoptSpec(spec: Spec)
      requires Inv() && ctrl.current.Some?
      modifies `ctrl
      ensures Inv()
      ensures var was := old(ctrl).current.value;
        ctrl == old(ctrl).(current := Some(was.(plan := was.plan.(spec := spec))), lastSpec := Some(spec))
    {
      hide ProcsOk, ListsOk, InstallsOk;
      ReplanKeeps(host.procs, ctrl, {}, ctrl.current.value.plan.(spec := spec), Some(spec));
      ctrl := ctrl.(current := Some(ctrl.current.value.(plan := ctrl.current.value.plan.(spec := spec))),
                    lastSpec := Some(spec));
    }

    method ApplyInPlace(desired: Plan, patch: bool) returns (r: Result<Outcome>)
      requires Inv() && ctrl.current.Some? && ctrl.quarantine == []
      requires desired.epoch == ctrl.current.value.plan.epoch
      requires desired.generation == ctrl.current.value.plan.generation + 1
      modifies this, host
      ensures Inv() && Onward(old(ctrl), old(host.procs).launches, old(installs)) && ctrl.last == old(ctrl).last
      ensures r.Ok? ==> ctrl.current.Some? && r.value.revision == RevisionOf(ctrl.current.value.plan)
      ensures r.Ok? ==> r.value.kind in {if patch then Patched else Reloaded, Restarted, RolledBack}
      ensures r.Ok? ==>
        ctrl.current.value.plan == if r.value.kind == RolledBack then old(ctrl).current.value.plan else desired
      ensures r.Ok? && r.value.kind in {Patched, Reloaded} ==>
        host.procs == old(host.procs) && ctrl.current.value.pid == old(ctrl).current.value.pid
      ensures r.Err? ==> Refused(old(ctrl), old(host.procs).launches) && Late(r.error)
      ensures r == Err(StopUnconfirmed) <==> ctrl.quarantine != []
    {
      hide Sound, Gone;
      var ok := CommitApply(desired);
      if !ok {
        return Err(Failed);
      }
      var reconciled: bool := *;
      if reconciled {
        Replan(desired);
        DropBackup(desired.epoch, desired.generation, {});
        return Ok(Outcome(if patch then Patched else Reloaded, RevisionOf(desired)));
      }
      r := RestartWithCompensation(desired);
    }

    method ApplyConfig(spec: Spec, snapshot: Option<Snapshot>, expected: Option<Revision>, terminal: bool)
        returns (r: Result<Outcome>)
      requires Inv()
      modifies this, host
      ensures Inv() && Onward(old(ctrl), old(host.procs).launches, old(installs))
      ensures r == Err(Gated) <==> old(ctrl).quarantine != []
      ensures r == Err(Gated) ==> unchanged(this) && unchanged(host)
      ensures r.Err? && r.error.RevisionConflict? <==>
        old(ctrl).quarantine == [] && Stale(old(ctrl), expected, terminal)
      ensures r.Err? && r.error.RevisionConflict? ==> unchanged(this) && unchanged(host)
      ensures r.Ok? ==> snapshot.Some? && Applied(old(ctrl), r.value, spec, snapshot.value)
      ensures r.Err? ==> Refused(old(ctrl), old(host.procs).launches)
      ensures r.Ok? ==> AsClassified(old(ctrl), r.value.kind, spec, snapshot)
    {
      hide Sound, Gone, Applied, AsClassified;
      if ctrl.quarantine != [] {
        return Err(Gated);
      }
      r := ApplyLocked(spec, snapshot, expected, terminal);
    }

    /** Makes the runtime match `spec`: applies it to a running core, or starts one. */
    method Reconcile(spec: Spec, snapshot: Option<Snapshot>, expected: Option<Revision>, terminal: bool)
        returns (r: Result<Outcome>)
      requires Inv()
      modifies this, host
      ensures Inv() && Onward(old(ctrl), old(host.procs).launches, old(installs))
      ensures r == Err(Gated) <==> old(ctrl).quarantine != []
      ensures r.Err? && r.error.RevisionConflict? <==>
        old(ctrl).quarantine == [] && expected.Some? && Effective(old(ctrl), terminal) != expected
      ensures r == Err(Gated) || (r.Err? && r.error.RevisionConflict?) ==> unchanged(this) && unchanged(host)
      ensures r.Ok? ==> snapshot.Some? && ctrl.current.Some? && r.value.revision == RevisionOf(ctrl.current.value.plan)
      ensures r.Ok? ==> if Effective(old(ctrl), terminal).Some? then Applied(old(ctrl), r.value, spec, snapshot.value)
                        else r.value.kind == Started && Running(ctrl, old(ctrl).last + 1, spec, snapshot)
      ensures r.Err? ==> Refused(old(ctrl), old(host.procs).launches)
      ensures r.Ok? && Effective(old(ctrl), terminal).Some? ==> AsClassified(old(ctrl), r.value.kind, spec, snapshot)
    {
      hide Sound, Gone, AsClassified;
      if ctrl.quarantine != [] {
        return Err(Gated);
      }
      if ctrl.current.Some? && !terminal {
        r := ApplyLocked(spec, snapshot, expected, terminal);
        return;
      }
      if expected.Some? {
        return Err(RevisionConflict(expected.value, None));
      }
      var started := DiscardStale();
      if started.Ok? {
        started := StartLocked(spec, snapshot);
      }
      if started.Err? {
        return Err(started.error);
      }
      r := Ok(Outcome(Started, RevisionOf(ctrl.current.value.plan)));
    }

    // ---------- Switch ----------

    /** Stops the old core before the new one starts. */
    method HardSwitch(spec: Spec, snapshot: Snapshot) returns (r: Result<()>)
      requires Inv() && ctrl.current.Some? && ctrl.quarantine == []
      modifies this, host
      ensures Inv() && Onward(old(ctrl), old(host.procs).launches, old(installs))
      ensures r.Ok? ==> Running(ctrl, old(ctrl).last + 1, spec, Some(snapshot)) && ctrl.quarantine == []
      ensures r.Err? ==> Refused(old(ctrl), old(host.procs).launches) && Late(r.error)
      ensures r == Err(StopUnconfirmed) <==> ctrl.quarantine != []
      ensures r.Ok? && old(ctrl).current.Some? ==> Gone(old(ctrl).current.value.plan.epoch)
    {
      hide Sound, OnlyRemoves, Gone, Snapshot.Full;
      var epoch := Allocate({});
      var plan := PrepareLaunch(spec, epoch, snapshot, {});
      if plan.None? {
        NoneOf(epoch, {});
        var _ := Cleanup(epoch, {});
        return Err(Failed);
      }
      var retired := Retire({});
      assert !retired.Nothing?;
      if retired.NotProven? {
        assert {} + {retired.epoch} == {retired.epoch};
        r := AbandonSwitch(epoch, retired);
        return;
      }
      NoneOf(retired.plan.epoch, {});
      var ok := Cleanup(retired.plan.epoch, {});
      if !ok {
        return Err(Failed);
      }
      GoneWhen(retired.plan.epoch);
      r := StartPrepared(plan.value);
    }

    /** The patch, if any is needed, leads from one document to the other. */
    ghost predicate LeadsBack(boot: Document, change: ConfigPatch.Change, full: Document) {
      match change
      case Noop => boot == full
      case Patch(patch) => ConfigPatch.Overlay(boot, patch) == full
      case _ => false
    }

    /** Finds the way back from the document without inbounds; only a patch that the control
        client's type does not take is refused. */
    method Restoration(epoch: Epoch, snapshot: Snapshot) returns (change: ConfigPatch.Change)
      requires snapshot.Full(epoch).Some? && snapshot.Boot(epoch).Some?
      ensures var boot, full := snapshot.Boot(epoch).value, snapshot.Full(epoch).value;
        && (LeadsBack(boot, change, full) <==> change.Noop? || change.Patch?)
        && (change.Noop? || change.Patch?
            || (ConfigPatch.Patchable(boot, full) && !decodes(ConfigPatch.Assembled(boot, full))))
    {
      hide ConfigPatch.Classified, ConfigPatch.Overlay, ConfigPatch.Assembled, ConfigBootstrap.Managed,
           ConfigBootstrap.Zeroed, ConfigPatch.Patchable;
      ConfigBootstrap.GracefulRestores(snapshot.source, snapshot.endpoint(epoch), snapshot.keepHttp,
                                       snapshot.Local(), decodes);
      change := ConfigPatch.ClassifyDocuments(snapshot.Boot(epoch).value, snapshot.Full(epoch).value, decodes);
    }

    /** Renders both documents and the way from one to the other. */
    method RenderBoth(epoch: Epoch, snapshot: Snapshot)
        returns (boot: Option<Document>, restoration: ConfigPatch.Change)
      requires ConfigBootstrap.Overlap(snapshot.source).None?
      ensures boot.Some? ==> snapshot.Full(epoch).Some? && snapshot.Boot(epoch) == boot
      ensures boot.Some? ==> Harmless(boot.value) && LeadsBack(boot.value, restoration, snapshot.Full(epoch).value)
    {
      hide Harmless, LeadsBack, ConfigBootstrap.Overlap, ConfigPatch.Assembled, ConfigPatch.Patchable;
      hide Snapshot.Full, Snapshot.Boot;
      boot, restoration := None, ConfigPatch.Noop;
      if snapshot.Full(epoch).None? || snapshot.Boot(epoch).None? {
        return;
      }
      BootIsHarmless(epoch, snapshot);
      restoration := Restoration(epoch, snapshot);
      if restoration.Noop? || restoration.Patch? {
        boot := snapshot.Boot(epoch);
      }
    }

    /** Like `PrepareLaunch`, but commits the document without inbounds; the full one waits. */
    method PrepareGraceful(spec: Spec, epoch: Epoch, snapshot: Snapshot)
        returns (plan: Option<Plan>, boot: Document, restoration: ConfigPatch.Change)
      requires Sound({}) && epoch <= ctrl.last && ConfigBootstrap.Overlap(snapshot.source).None?
      modifies host`files
      ensures Sound({})
      ensures forall e | e != epoch :: Lookup(host.files.runtime, e) == Lookup(old(host.files).runtime, e)
      ensures plan.Some? ==> snapshot.Boot(epoch) == Some(boot) && Lookup(host.files.runtime, epoch) == Some(boot)
      ensures plan.Some? ==> snapshot.Full(epoch).Some?
      ensures plan.Some? ==> plan.value == Plan(epoch, 1, spec, snapshot.source, snapshot.Full(epoch).value)
      ensures plan.Some? ==> Harmless(boot) && LeadsBack(boot, restoration, plan.value.document)
    {
      hide ProcsOk, ListsOk, RecordsOk, InstallsOk, Harmless, LeadsBack, ConfigBootstrap.Overlap, Snapshot.Full;
      hide Snapshot.Boot;
      plan, boot := None, map[];
      var rendered;
      rendered, restoration := RenderBoth(epoch, snapshot);
      var accepted: bool := *;
      if rendered.None? || !accepted {
        return;
      }
      boot := rendered.value;
      var ok := host.CommitNew(epoch, boot);
      if ok {
        plan := Some(Plan(epoch, 1, spec, snapshot.source, snapshot.Full(epoch).value));
      }
    }

    static lemma BootIsHarmless(epoch: Epoch, snapshot: Snapshot)
      requires snapshot.Boot(epoch).Some? && ConfigBootstrap.Overlap(snapshot.source).None?
      ensures Harmless(snapshot.Boot(epoch).value)
    {
      hide ConfigBootstrap.Managed, ConfigBootstrap.Zeroed, ConfigBootstrap.Overlap, ConfigBootstrap.Idle;
      ConfigBootstrap.BootstrapIdle(snapshot.source, snapshot.endpoint(epoch), snapshot.keepHttp, snapshot.Local());
    }

    /** Starts the new core without inbounds beside the old one, then hands over. */
    method GracefulSwitch(spec: Spec, snapshot: Snapshot) returns (r: Result<bool>)
      requires Inv() && ctrl.current.Some? && ctrl.quarantine == []
      requires ConfigBootstrap.Overlap(snapshot.source).None?
      modifies this, host
      ensures Inv() && Onward(old(ctrl), old(host.procs).launches, old(installs))
      ensures r.Ok? ==> Running(ctrl, old(ctrl).last + 1, spec, Some(snapshot)) && ctrl.quarantine == []
      ensures r.Err? ==> Late(r.error)
      ensures r.Err? ==>
        || ctrl.current == old(ctrl).current || ctrl.current.None?
        || Running(ctrl, old(ctrl).last + 1, spec, Some(snapshot))
      ensures r == Err(StopUnconfirmed) <==> ctrl.quarantine != []
      ensures r.Ok? && old(ctrl).current.Some? ==> Gone(old(ctrl).current.value.plan.epoch)
    {
      hide Sound, OnlyRemoves, Gone, Harmless, LeadsBack, ConfigBootstrap.Overlap, Snapshot.Full, Snapshot.Boot;
      var epoch := Allocate({});
      var plan, boot, _ := PrepareGraceful(spec, epoch, snapshot);
      if plan.None? {
        NoneOf(epoch, {});
        var _ := Cleanup(epoch, {});
        return Err(Failed);
      }
      var pid := LaunchBootstrap(epoch, boot);
      match pid
      case Rejected =>
        r := Err(Failed);
      case Lost =>
        Latch(epoch, {epoch});
        assert {epoch} - {epoch} == {};
        r := Err(StopUnconfirmed);
      case Ready(pid) =>
        r := TakeOver(pid, plan.value);
    }

    /** The bootstrap is up: the old core goes, and the new one follows or goes too. */
    method TakeOver(pid: Pid, plan: Plan) returns (r: Result<bool>)
      requires Sound({plan.epoch}) && ctrl.current.Some? && ctrl.quarantine == [] && plan.epoch <= ctrl.last
      requires plan.epoch !in SlotEpoch(ctrl) && NewRevision(installs, plan)
      requires pid in host.procs.live && host.procs.live[pid] == plan.epoch
      modifies this, host
      ensures Inv() && old(host.procs).launches <= host.procs.launches && old(installs) <= installs
      ensures ctrl.last == old(ctrl).last
      ensures r.Ok? ==> ctrl.current.Some? && ctrl.quarantine == []
      ensures r.Err? ==> Late(r.error)
      ensures ctrl.current.Some? ==> ctrl.current.value.plan == plan && ctrl.lastSpec == Some(plan.spec)
      ensures r == Err(StopUnconfirmed) <==> ctrl.quarantine != []
      ensures r.Ok? ==> Gone(old(ctrl).current.value.plan.epoch)
    {
      hide Sound, Gone;
      var retired := Retire({plan.epoch});
      if retired.Done? {
        r := HandOver(pid, plan, retired.plan.epoch);
      } else {
        assert {plan.epoch} + {retired.epoch} == {plan.epoch, retired.epoch};
        r := AbandonBoth(pid, plan.epoch, retired);
      }
    }

    method LaunchBootstrap(epoch: Epoch, boot: Document) returns (r: Spawned)
      requires Inv() && ctrl.current.Some? && ctrl.quarantine == [] && epoch <= ctrl.last
      requires epoch !in SlotEpoch(ctrl) && Lookup(host.files.runtime, epoch) == Some(boot) && Harmless(boot)
      modifies host
      ensures old(host.procs).launches <= host.procs.launches
      ensures OnDisk(ctrl.current.value.plan) && Sound(if r.Rejected? then {} else {epoch})
      ensures r.Ready? ==> r.pid in host.procs.live && host.procs.live[r.pid] == epoch
      ensures r.Ready? ==> host.files == old(host.files)
    {
      hide ProcsOk, ListsOk, InstallsOk, OnlyRemoves;
      OnlyTheSlot(host.procs, ctrl);
      var pid := Launch(epoch, boot, true, {});
      assert {} + {epoch} == {epoch} && {epoch} - {epoch} == {};
      if pid.None? {
        NoneOf(epoch, {});
        var _ := Cleanup(epoch, {});
        return Rejected;
      }
      var ready: bool := *;
      if ready {
        return Ready(pid.value);
      }
      var outcome := StopInstance(pid.value, epoch, {epoch});
      if outcome.Stopped? {
        NoneOf(epoch, {});
        var _ := Cleanup(epoch, {});
        return Rejected;
      }
      if outcome.StopFailed? {
        HandGrows(host.procs, ctrl, {}, epoch);
      }
      return Lost;
    }

    /** The old core did not stop cleanly: the bootstrap is stopped too, and whatever is
        not proven dead is quarantined. */
    method AbandonBoth(pid: Pid, epoch: Epoch, retired: Retired) returns (r: Result<bool>)
      requires retired.NotProven? && retired.epoch != epoch && epoch <= ctrl.last && ctrl.current.None?
      requires ctrl.quarantine == []
      requires Sound(if retired.unconfirmed then {epoch, retired.epoch} else {epoch})
      requires pid in host.procs.live && host.procs.live[pid] == epoch
      modifies `ctrl, host
      ensures Inv() && ctrl == old(ctrl).(quarantine := ctrl.quarantine)
      ensures host.procs.launches == old(host.procs).launches
      ensures r.Err? && Late(r.error) && (r == Err(StopUnconfirmed) <==> ctrl.quarantine != [])
      ensures retired.unconfirmed ==> retired.epoch in Epochs(ctrl.quarantine)
    {
      hide ProcsOk, ListsOk, InstallsOk, OnlyRemoves;
      ghost var hand := if retired.unconfirmed then {epoch, retired.epoch} else {epoch};
      ghost var rest := hand - {epoch};
      assert rest == if retired.unconfirmed then {retired.epoch} else {};
      assert rest - {retired.epoch} == {};
      var outcome := StopInstance(pid, epoch, hand);
      if outcome.Stopped? {
        NoneOf(epoch, rest);
        var _ := Cleanup(epoch, rest);
        if retired.unconfirmed {
          Latch(retired.epoch, rest);
          return Err(StopUnconfirmed);
        }
        return Err(Failed);
      }
      if outcome.StopFailed? {
        HandGrows(host.procs, ctrl, rest, epoch);
        assert rest + {epoch} == hand;
      }
      if retired.unconfirmed {
        Latch(retired.epoch, hand);
        assert hand - {retired.epoch} - {epoch} == {} && hand - {retired.epoch} == {epoch};
      }
      Latch(epoch, {epoch});
      return Err(StopUnconfirmed);
    }

    /** The old core is gone: the bootstrap gets its full document, and if it cannot be
        brought up to it, a fresh process of the same epoch takes over. */
    method HandOver(pid: Pid, plan: Plan, oldEpoch: Epoch) returns (r: Result<bool>)
      requires Sound({plan.epoch}) && ctrl.current.None? && ctrl.quarantine == [] && plan.epoch <= ctrl.last
      requires pid in host.procs.live && host.procs.live[pid] == plan.epoch
      requires NewRevision(installs, plan) && oldEpoch != plan.epoch
      modifies this, host
      ensures Inv() && old(host.procs).launches <= host.procs.launches && old(installs) <= installs
      ensures ctrl.last == old(ctrl).last
      ensures r.Ok? ==> ctrl.current.Some? && ctrl.quarantine == []
      ensures r.Err? ==> Late(r.error)
      ensures ctrl.current.Some? ==> ctrl.current.value.plan == plan && ctrl.lastSpec == Some(plan.spec)
      ensures r == Err(StopUnconfirmed) <==> ctrl.quarantine != []
      ensures r.Ok? ==> Gone(oldEpoch)
    {
      hide ProcsOk, ListsOk, InstallsOk, OnlyRemoves;
      var epoch := plan.epoch;
      assert {epoch} - {epoch} == {};
      var committed := host.CommitReplace(epoch, plan.document);
      if !committed {
        r := DropBootstrap(pid, epoch);
        return;
      }
      var reconciled: bool := *;
      if reconciled {
        r := Settle(pid, plan, oldEpoch, true);
        return;
      }
      var outcome := StopInstance(pid, epoch, {epoch});
      match outcome
      case Unconfirmed =>
        Latch(epoch, {epoch});
        r := Err(StopUnconfirmed);
      case StopFailed =>
        r := Err(Failed);
      case Stopped =>
        r := ReplaceBootstrap(plan, oldEpoch);
    }

    method DropBootstrap(pid: Pid, epoch: Epoch) returns (r: Result<bool>)
      requires Sound({epoch}) && ctrl.current.None? && ctrl.quarantine == []
      requires pid in host.procs.live && host.procs.live[pid] == epoch && epoch <= ctrl.last
      modifies `ctrl, host
      ensures Inv() && ctrl == old(ctrl).(quarantine := ctrl.quarantine)
      ensures host.procs.launches == old(host.procs).launches
      ensures r.Err? && Late(r.error) && (r == Err(StopUnconfirmed) <==> ctrl.quarantine != [])
    {
      hide ProcsOk, ListsOk, InstallsOk, OnlyRemoves;
      assert {epoch} - {epoch} == {} && {} + {epoch} == {epoch};
      var outcome := StopInstance(pid, epoch, {epoch});
      if outcome.Stopped? {
        NoneOf(epoch, {});
        var _ := Cleanup(epoch, {});
        return Err(Failed);
      }
      if outcome.StopFailed? {
        HandGrows(host.procs, ctrl, {}, epoch);
      }
      Latch(epoch, {epoch});
      return Err(StopUnconfirmed);
    }

    method ReplaceBootstrap(plan: Plan, oldEpoch: Epoch) returns (r: Result<bool>)
      requires Sound({}) && ctrl.current.None? && ctrl.quarantine == [] && plan.epoch <= ctrl.last && OnDisk(plan)
      requires NewRevision(installs, plan) && oldEpoch != plan.epoch
      modifies this, host
      ensures Inv() && old(host.procs).launches <= host.procs.launches && old(installs) <= installs
      ensures ctrl.last == old(ctrl).last
      ensures r.Ok? ==> ctrl.current.Some? && ctrl.quarantine == []
      ensures r.Err? ==> Late(r.error)
      ensures ctrl.current.Some? ==> ctrl.current.value.plan == plan && ctrl.lastSpec == Some(plan.spec)
      ensures r == Err(StopUnconfirmed) <==> ctrl.quarantine != []
      ensures r.Ok? ==> Gone(oldEpoch)
    {
      hide Sound, OnlyRemoves, Gone;
      var spawned := SpawnReplacement(plan);
      assert {plan.epoch} - {plan.epoch} == {};
      match spawned
      case Lost =>
        Latch(plan.epoch, {plan.epoch});
        r := Err(StopUnconfirmed);
      case Rejected =>
        NoneOf(plan.epoch, {});
        var _ := Cleanup(plan.epoch, {});
        r := Err(Failed);
      case Ready(pid) =>
        r := Settle(pid, plan, oldEpoch, false);
    }

    /** The new core is in; what is left of the old one goes, and a failure to remove it is
        reported although the switch took effect. */
    method Settle(pid: Pid, plan: Plan, oldEpoch: Epoch, graceful: bool) returns (r: Result<bool>)
      requires Sound({plan.epoch}) && ctrl.current.None? && ctrl.quarantine == [] && OnDisk(plan)
      requires pid in host.procs.live && host.procs.live[pid] == plan.epoch
      requires NewRevision(installs, plan) && oldEpoch != plan.epoch
      modifies this, host`files, host`pidFiles
      ensures Inv() && old(installs) <= installs && (r == Ok(graceful) || r == Err(Failed))
      ensures ctrl == old(ctrl).(current := Some(Active(pid, plan)), lastSpec := Some(plan.spec))
      ensures r.Ok? ==> Gone(oldEpoch)
    {
      hide Sound, OnlyRemoves, Gone;
      assert {plan.epoch} - {plan.epoch} == {};
      Install(pid, plan, false, {plan.epoch});
      NoneOf(oldEpoch, {});
      var ok := Cleanup(oldEpoch, {});
      GoneWhen(oldEpoch);
      r := if ok then Ok(graceful) else Err(Failed);
    }

    /** The document opens a controller over HTTP. */
    static predicate HasHttp(document: Document) {
      exists key | key in ["external-controller", "external-controller-tls"] ::
        key in document && document[key].Str? && document[key].text != ""
    }

    /** The two cores can run beside each other: they are controlled over a local endpoint and
        not over HTTP, and what the new one listens on can be turned off. */
    static predicate CanOverlap(was: Plan, spec: Spec, snapshot: Snapshot, localIpc: bool) {
      && localIpc && !HasHttp(was.document) && !(snapshot.keepHttp && HasHttp(snapshot.source))
      && spec.kind.Mihomo? && ConfigBootstrap.Overlap(snapshot.source).None?
    }

    method SwitchLocked(spec: Spec, snapshot: Option<Snapshot>, terminal: bool, localIpc: bool)
        returns (r: Result<bool>)
      requires Inv() && ctrl.quarantine == []
      modifies this, host
      ensures Inv() && Onward(old(ctrl), old(host.procs).launches, old(installs))
      ensures r.Ok? ==> Running(ctrl, old(ctrl).last + 1, spec, snapshot) && ctrl.quarantine == []
      ensures r == Ok(true) ==> Effective(old(ctrl), terminal).Some? && snapshot.Some?
                                && CanOverlap(old(ctrl).current.value.plan, spec, snapshot.value, localIpc)
      ensures r.Err? ==>
        ctrl.current == old(ctrl).current || ctrl.current.None? || Running(ctrl, old(ctrl).last + 1, spec, snapshot)
      ensures r.Err? ==> Late(r.error)
      ensures r == Err(StopUnconfirmed) <==> ctrl.quarantine != []
      ensures r.Ok? && old(ctrl).current.Some? ==> Gone(old(ctrl).current.value.plan.epoch)
    {
      hide Sound, Gone, Snapshot.Full, ConfigBootstrap.Overlap, HasHttp;
      if ctrl.current.None? || terminal {
        if ctrl.current.Some? {
          SlotEpochIsKnown();
        }
        var started := DiscardStale();
        if started.Ok? {
          started := StartLocked(spec, snapshot);
        }
        return if started.Ok? then Ok(false) else Err(started.error);
      }
      var launchable: bool := *;
      if snapshot.None? || !launchable {
        return Err(Failed);
      }
      var block := ConfigBootstrap.OverlapBlock(snapshot.value.source);
      var http := HasHttp(ctrl.current.value.plan.document)
                  || (snapshot.value.keepHttp && HasHttp(snapshot.value.source));
      if !localIpc || http || !spec.kind.Mihomo? || block.Some? {
        var switched := HardSwitch(spec, snapshot.value);
        r := if switched.Ok? then Ok(false) else Err(switched.error);
      } else {
        r := GracefulSwitch(spec, snapshot.value);
      }
    }

    method Switch(spec: Spec, snapshot: Option<Snapshot>, terminal: bool, localIpc: bool) returns (r: Result<bool>)
      requires Inv()
      modifies this, host
      ensures Inv() && Onward(old(ctrl), old(host.procs).launches, old(installs))
      ensures r == Err(Gated) <==> old(ctrl).quarantine != []
      ensures r == Err(Gated) ==> unchanged(this) && unchanged(host)
      ensures r.Ok? ==> Running(ctrl, old(ctrl).last + 1, spec, snapshot) && ctrl.quarantine == []
      ensures r == Ok(true) ==> Effective(old(ctrl), terminal).Some? && snapshot.Some?
                                && CanOverlap(old(ctrl).current.value.plan, spec, snapshot.value, localIpc)
      ensures r.Err? ==>
        ctrl.current == old(ctrl).current || ctrl.current.None? || Running(ctrl, old(ctrl).last + 1, spec, snapshot)
      ensures r.Ok? && old(ctrl).current.Some? ==> Gone(old(ctrl).current.value.plan.epoch)
    {
      hide Sound, Gone;
      if ctrl.quarantine != [] {
        return Err(Gated);
      }
      r := SwitchLocked(spec, snapshot, terminal, localIpc);
    }

    /** Switches to the specification that was last in the slot. */
    method Restart(snapshot: Option<Snapshot>, terminal: bool, localIpc: bool) returns (r: Result<bool>)
      requires Inv()
      modifies this, host
      ensures Inv() && Onward(old(ctrl), old(host.procs).launches, old(installs))
      ensures r == Err(Gated) <==> old(ctrl).quarantine != []
      ensures r == Err(NotStarted) <==> old(ctrl).quarantine == [] && old(ctrl).lastSpec.None?
      ensures r == Err(Gated) || r == Err(NotStarted) ==> unchanged(this) && unchanged(host)
      ensures r.Ok? ==> Running(ctrl, old(ctrl).last + 1, old(ctrl).lastSpec.value, snapshot) && ctrl.quarantine == []
      ensures r.Ok? && old(ctrl).current.Some? ==> Gone(old(ctrl).current.value.plan.epoch)
    {
      hide Sound, Gone;
      if ctrl.quarantine != [] {
        return Err(Gated);
      }
      if ctrl.lastSpec.None? {
        return Err(NotStarted);
      }
      r := SwitchLocked(ctrl.lastSpec.value, snapshot, terminal, localIpc);
    }

    // ---------- Recovery ----------

    /** Proves quarantined processes dead and cleans up after them; an epoch whose process
        cannot be proven dead, or whose artifacts stay, keeps its place. */
    method Recover() returns (r: Result<()>)
      requires Inv()
      modifies `ctrl, host
      ensures Inv() && host.procs.launches == old(host.procs).launches
      ensures ctrl == old(ctrl).(quarantine := ctrl.quarantine)
      ensures r == (if ctrl.quarantine == [] then Ok(()) else Err(Gated))
      ensures Epochs(ctrl.quarantine) <= Epochs(old(ctrl).quarantine)
      ensures forall e | e in Epochs(old(ctrl).quarantine) && e !in Epochs(ctrl.quarantine) :: Gone(e)
    {
      hide Sound, Gone, Epochs, Pending, Distinct;
      var quarantined := ctrl.quarantine;
      var failed := false;
      ghost var stuck := 0;
      PendingStarts();
      for i := 0 to |quarantined|
        invariant Inv() && host.procs.launches == old(host.procs).launches
        invariant ctrl == old(ctrl).(quarantine := ctrl.quarantine)
        invariant Pending(quarantined, ctrl.quarantine, i, failed, stuck)
        invariant forall e | e in Epochs(quarantined) && e !in Epochs(ctrl.quarantine) :: Gone(e)
      {
        ghost var before := ctrl.quarantine;
        PendingNext(quarantined, before, i, failed, stuck);
        var gone := RecoverEpoch(quarantined[i]);
        PendingStep(quarantined, before, i, failed, stuck, ctrl.quarantine, gone);
        if !failed {
          stuck := i;
        }
        failed := failed || !gone;
      }
      PendingEnds(quarantined, ctrl.quarantine, failed, stuck);
      r := if failed then Err(Gated) else Ok(());
    }

    lemma PendingStarts()
      requires Sound({})
      ensures Pending(ctrl.quarantine, ctrl.quarantine, 0, false, 0) && Distinct(ctrl.quarantine)
    {
    }

    method RecoverEpoch(entry: Quarantined) returns (gone: bool)
      requires Inv() && entry in ctrl.quarantine
      modifies `ctrl, host
      ensures Inv() && host.procs.launches == old(host.procs).launches
      ensures ctrl == old(ctrl).(quarantine := ctrl.quarantine)
      ensures Epochs(ctrl.quarantine) ==
        if gone then Epochs(old(ctrl).quarantine) - {entry.epoch} else Epochs(old(ctrl).quarantine)
      ensures forall x | x in old(ctrl).quarantine && x.epoch != entry.epoch :: x in ctrl.quarantine
      ensures gone ==> Gone(entry.epoch)
      ensures forall e | old(Gone(e)) :: Gone(e)
    {
      hide Sound, Gone, Epochs, Unproven, Without;
      MemberHeld(ctrl.quarantine, entry);
      if entry.deathProven {
        PendingStarts();
        ProvenEntry(ctrl.quarantine, entry);
      } else {
        MarkedEpochs(ctrl.quarantine, entry.epoch);
        gone := ProveDead(entry.epoch);
        if !gone {
          return;
        }
      }
      WithoutEpochs(ctrl.quarantine, entry.epoch);
      gone := Release(entry.epoch);
    }

    method ProveDead(epoch: Epoch) returns (proven: bool)
      requires Inv() && epoch in Epochs(ctrl.quarantine)
      modifies `ctrl, host`procs
      ensures Inv() && host.procs.launches == old(host.procs).launches
      ensures ctrl == old(ctrl).(quarantine :=
        if proven then Marked(old(ctrl).quarantine, epoch) else old(ctrl).quarantine)
      ensures forall e | old(Gone(e)) :: Gone(e)
    {
      hide ProcsOk, ListsOk, RecordsOk, InstallsOk, Marked;
      if epoch in host.pidFiles {
        MarkKeeps(host.procs, host.pidFiles, ctrl, epoch);
      }
      var outcome := host.Reap(epoch);
      proven := outcome.Dead?;
      if proven {
        ctrl := ctrl.(quarantine := Marked(ctrl.quarantine, epoch));
      }
    }

    method Release(epoch: Epoch) returns (ok: bool)
      requires Inv() && epoch in Epochs(ctrl.quarantine) && epoch !in Unproven(ctrl.quarantine)
      modifies `ctrl, host`files, host`pidFiles
      ensures Inv() && (ok ==> Gone(epoch))
      ensures ctrl == old(ctrl).(quarantine :=
        if ok then Without(old(ctrl).quarantine, epoch) else old(ctrl).quarantine)
      ensures forall e | old(Gone(e)) :: Gone(e)
    {
      hide ProcsOk, ListsOk, RecordsOk, InstallsOk, Without, Epochs, Unproven;
      ReleaseKeeps(host.procs, ctrl, epoch);
      if ctrl.current.Some? {
        HeldApart(ctrl.current.value.plan.epoch);
      }
      ok := Cleanup(epoch, {});
      if ok {
        ctrl := ctrl.(quarantine := Without(ctrl.quarantine, epoch));
      }
    }
  }
}
