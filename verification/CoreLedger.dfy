/**
 The manager's control state, what has to hold of it beside the host, and how each step
 of a transaction keeps that.
 */
module CoreLedger {
  import opened Prelude
  import opened CoreHost
  import ConfigBootstrap
  import ConfigPatch

  datatype CoreKind = Mihomo | Other(name: string)

  /** `process` is everything whose change needs a new process; `rest` is kept for later. */
  datatype Spec = Spec(kind: CoreKind, process: string, rest: string)

  predicate ProcessChanged(a: Spec, b: Spec) {
    a.kind != b.kind || a.process != b.process
  }

  /** `source` is the document as loaded, `document` the one that is run. */
  datatype Plan = Plan(epoch: Epoch, generation: nat, spec: Spec, source: Document, document: Document)

  function ViewOf(plan: Plan): ConfigBootstrap.View {
    ConfigBootstrap.View(plan.source, plan.document)
  }

  datatype Active = Active(pid: Pid, plan: Plan)

  datatype Quarantined = Quarantined(epoch: Epoch, deathProven: bool)

  datatype Ctrl = Ctrl(last: nat, current: Option<Active>, lastSpec: Option<Spec>, quarantine: seq<Quarantined>)

  datatype Revision = Revision(epoch: Epoch, generation: nat)

  datatype Install = Install(plan: Plan, onDisk: Option<Document>, rollback: bool)

  datatype Error =
    | Gated
    | AlreadyRunning
    | NotStarted
    | RevisionConflict(expected: Revision, actual: Option<Revision>)
    | StopUnconfirmed
    | RollbackFailed
    | Failed

  datatype Result<+T> = Ok(value: T) | Err(error: Error)

  /** A loaded configuration and how it is rendered: the controller's endpoint depends on the
      epoch, and rendering a document, full or without inbounds, may be refused. */
  datatype Snapshot = Snapshot(source: Document, endpoint: Epoch -> Option<string>, keepHttp: bool, pipe: bool,
                               renders: (Epoch, bool) -> bool)
  {
    function Local(): (key: string)
      ensures ConfigBootstrap.IsLocal(key)
    {
      if pipe then "external-controller-pipe" else "external-controller-unix"
    }

    function Full(epoch: Epoch): Option<Document> {
      if renders(epoch, false) then Some(ConfigBootstrap.Managed(source, endpoint(epoch), keepHttp, Local())) else None
    }

    function Boot(epoch: Epoch): Option<Document> {
      if !renders(epoch, true) then None
      else Some(ConfigBootstrap.Managed(ConfigBootstrap.Zeroed(source), endpoint(epoch), keepHttp, Local()))
    }
  }

  function RevisionOf(plan: Plan): Revision {
    Revision(plan.epoch, plan.generation)
  }

  // ---------- Who may be alive ----------

  ghost function Epochs(q: seq<Quarantined>): set<Epoch> {
    set i | 0 <= i < |q| :: q[i].epoch
  }

  ghost function Unproven(q: seq<Quarantined>): set<Epoch> {
    set i | 0 <= i < |q| && !q[i].deathProven :: q[i].epoch
  }

  ghost function SlotEpoch(c: Ctrl): set<Epoch> {
    if c.current.Some? then {c.current.value.plan.epoch} else {}
  }

  /** `hand` holds the epochs of processes the running transaction has to answer for. */
  ghost predicate Accounted(live: map<Pid, Epoch>, c: Ctrl, hand: set<Epoch>) {
    forall p | p in live :: live[p] in SlotEpoch(c) + Unproven(c.quarantine) + hand
  }

  ghost predicate OnePerEpoch(live: map<Pid, Epoch>) {
    forall p, q | p in live && q in live && live[p] == live[q] :: p == q
  }

  ghost predicate Distinct(q: seq<Quarantined>) {
    forall i, j | 0 <= i < |q| && 0 <= j < |q| && q[i].epoch == q[j].epoch :: i == j
  }

  ghost predicate UpTo(epochs: set<Epoch>, last: nat) {
    forall e | e in epochs :: e <= last
  }

  ghost predicate ListsOk(c: Ctrl, hand: set<Epoch>) {
    && Distinct(c.quarantine)
    && SlotEpoch(c) !! Epochs(c.quarantine) && hand !! Epochs(c.quarantine) && hand !! SlotEpoch(c)
    && UpTo(SlotEpoch(c), c.last) && UpTo(Epochs(c.quarantine), c.last) && UpTo(hand, c.last)
  }

  ghost predicate SlotRuns(live: map<Pid, Epoch>, c: Ctrl) {
    c.current.Some? ==> c.current.value.pid in live && live[c.current.value.pid] == c.current.value.plan.epoch
  }

  /** The document opens no inbound, unless an empty `dns.listen` hid it from the overlap check. */
  ghost predicate Harmless(document: Document) {
    || ConfigBootstrap.Idle(document)
    || (var listen := ConfigPatch.DnsListen(document); listen.Some? && ConfigBootstrap.IsEmptyListen(listen.value))
  }

  /** A launch finds its own document, and only a bootstrap may find a process alive: the
      one in the slot. What is launched beside it is harmless. */
  ghost predicate AttemptOk(a: Attempt) {
    && a.onDisk == Some(a.planned)
    && a.mayLive <= (if a.bootstrap && a.slot.Some? then {a.slot.value} else {})
    && (a.bootstrap ==> Harmless(a.planned))
  }

  ghost predicate ProcsOk(procs: Procs, c: Ctrl, hand: set<Epoch>) {
    && (forall p | p in procs.live :: p < procs.nextPid)
    && Accounted(procs.live, c, hand) && OnePerEpoch(procs.live) && SlotRuns(procs.live, c)
    && (forall a | a in procs.launches :: AttemptOk(a))
  }

  /** Every process is named by the pid record of its epoch, and no record names another. */
  ghost predicate RecordsOk(procs: Procs, pidFiles: map<Epoch, Pid>) {
    && (forall p | p in procs.live :: procs.live[p] in pidFiles && pidFiles[procs.live[p]] == p)
    && (forall e | e in pidFiles ::
          pidFiles[e] < procs.nextPid && (pidFiles[e] in procs.live ==> procs.live[pidFiles[e]] == e))
  }

  ghost predicate FilesOk(files: Files, last: nat) {
    && (forall e | e in files.runtime :: e <= last)
    && (forall k | k in files.backups :: k.0 <= last)
  }

  // ---------- What was installed ----------

  predicate Before(a: Plan, b: Plan) {
    a.epoch < b.epoch || (a.epoch == b.epoch && a.generation < b.generation)
  }

  predicate SameRevision(a: Plan, b: Plan) {
    a.epoch == b.epoch && a.generation == b.generation && a.document == b.document
  }

  /** Each install found its document on disk, and either moved the revision forward or
      rolled back to the plan installed before it. */
  ghost predicate InstallsOk(installs: seq<Install>, last: nat) {
    if installs == [] then true
    else
      var rest, x := installs[..|installs| - 1], installs[|installs| - 1];
      && InstallsOk(rest, last)
      && x.plan.epoch <= last && x.onDisk == Some(x.plan.document)
      && (if x.rollback then rest != [] && SameRevision(rest[|rest| - 1].plan, x.plan)
          else rest == [] || Before(rest[|rest| - 1].plan, x.plan))
  }

  ghost predicate LastInstalled(installs: seq<Install>, plan: Plan) {
    installs != [] && SameRevision(installs[|installs| - 1].plan, plan)
  }

  ghost predicate NewRevision(installs: seq<Install>, plan: Plan) {
    installs == [] || Before(installs[|installs| - 1].plan, plan)
  }

  lemma {:induction false} InstallsAscend(installs: seq<Install>, last: nat, i: nat, j: nat)
    requires InstallsOk(installs, last) && i <= j < |installs|
    ensures SameRevision(installs[i].plan, installs[j].plan) || Before(installs[i].plan, installs[j].plan)
  {
    if i < j {
      var rest := installs[..|installs| - 1];
      if j < |rest| {
        InstallsAscend(rest, last, i, j);
      } else {
        InstallsAscend(rest, last, i, j - 1);
      }
    }
  }

  /** A revision names one document for the manager's whole lifetime. */
  lemma RevisionNamesDocument(installs: seq<Install>, last: nat, i: nat, j: nat)
    requires InstallsOk(installs, last) && i < |installs| && j < |installs|
    requires RevisionOf(installs[i].plan) == RevisionOf(installs[j].plan)
    ensures installs[i].plan.document == installs[j].plan.document
  {
    if i <= j {
      InstallsAscend(installs, last, i, j);
    } else {
      InstallsAscend(installs, last, j, i);
    }
  }

  lemma {:induction false} InstallFound(installs: seq<Install>, last: nat, i: nat)
    requires InstallsOk(installs, last) && i < |installs|
    ensures installs[i].plan.epoch <= last && installs[i].onDisk == Some(installs[i].plan.document)
  {
    if i < |installs| - 1 {
      InstallFound(installs[..|installs| - 1], last, i);
    }
  }

  lemma {:induction false} InstallsOutlast(installs: seq<Install>, last: nat, later: nat)
    requires InstallsOk(installs, last) && last <= later
    ensures InstallsOk(installs, later)
  {
    if installs != [] {
      InstallsOutlast(installs[..|installs| - 1], last, later);
    }
  }

  lemma InstallsSnoc(installs: seq<Install>, last: nat, x: Install)
    requires InstallsOk(installs, last)
    requires x.plan.epoch <= last && x.onDisk == Some(x.plan.document)
    requires if x.rollback then LastInstalled(installs, x.plan) else NewRevision(installs, x.plan)
    ensures InstallsOk(installs + [x], last)
  {
    assert (installs + [x])[..|installs|] == installs;
  }

  // ---------- One step of a transaction ----------

  lemma TakeKeeps(procs: Procs, c: Ctrl, hand: set<Epoch>)
    requires ProcsOk(procs, c, hand) && ListsOk(c, hand) && c.current.Some?
    ensures var next := hand + {c.current.value.plan.epoch};
      ProcsOk(procs, c.(current := None), next) && ListsOk(c.(current := None), next)
  {
  }

  lemma DeathKeeps(procs: Procs, c: Ctrl, hand: set<Epoch>, pid: Pid, epoch: Epoch)
    requires ProcsOk(procs, c, hand) && ListsOk(c, hand) && epoch in hand
    requires pid in procs.live && procs.live[pid] == epoch
    ensures var next := procs.(live := procs.live - {pid});
      ProcsOk(next, c, hand - {epoch}) && ListsOk(c, hand - {epoch})
  {
    hide AttemptOk;
  }

  lemma LatchKeeps(procs: Procs, c: Ctrl, hand: set<Epoch>, epoch: Epoch)
    requires ProcsOk(procs, c, hand) && ListsOk(c, hand) && epoch in hand
    ensures var next := c.(quarantine := c.quarantine + [Quarantined(epoch, false)]);
      && ProcsOk(procs, next, hand - {epoch}) && ListsOk(next, hand - {epoch})
      && Epochs(next.quarantine) == Epochs(c.quarantine) + {epoch}
  {
    hide AttemptOk, Distinct;
    var q := c.quarantine;
    var next := q + [Quarantined(epoch, false)];
    EpochsSnoc(q, epoch);
    DistinctSnoc(q, epoch);
  }

  lemma EpochsSnoc(q: seq<Quarantined>, epoch: Epoch)
    ensures var next := q + [Quarantined(epoch, false)];
      Epochs(next) == Epochs(q) + {epoch} && Unproven(next) == Unproven(q) + {epoch}
  {
    var next := q + [Quarantined(epoch, false)];
    assert next[|q|].epoch == epoch && !next[|q|].deathProven;
    assert forall i | 0 <= i < |q| :: next[i] == q[i];
    forall e | e in Epochs(q) ensures e in Epochs(next) {
      var i :| 0 <= i < |q| && q[i].epoch == e;
      assert next[i].epoch == e;
    }
    forall e | e in Unproven(q) ensures e in Unproven(next) {
      var i :| 0 <= i < |q| && !q[i].deathProven && q[i].epoch == e;
      assert next[i].epoch == e && !next[i].deathProven;
    }
  }

  lemma DistinctSnoc(q: seq<Quarantined>, epoch: Epoch)
    requires Distinct(q) && epoch !in Epochs(q)
    ensures Distinct(q + [Quarantined(epoch, false)])
  {
    forall i | 0 <= i < |q| ensures q[i].epoch != epoch {
      assert q[i].epoch in Epochs(q);
    }
  }

  lemma InstallKeeps(procs: Procs, c: Ctrl, hand: set<Epoch>, pid: Pid, plan: Plan)
    requires ProcsOk(procs, c, hand) && ListsOk(c, hand) && c.current.None? && plan.epoch in hand
    requires pid in procs.live && procs.live[pid] == plan.epoch
    ensures var next := c.(current := Some(Active(pid, plan)), lastSpec := Some(plan.spec));
      ProcsOk(procs, next, hand - {plan.epoch}) && ListsOk(next, hand - {plan.epoch})
  {
    hide AttemptOk;
  }

  lemma ReplanKeeps(procs: Procs, c: Ctrl, hand: set<Epoch>, plan: Plan, lastSpec: Option<Spec>)
    requires ProcsOk(procs, c, hand) && ListsOk(c, hand) && c.current.Some? && plan.epoch == c.current.value.plan.epoch
    ensures var next := c.(current := Some(c.current.value.(plan := plan)), lastSpec := lastSpec);
      ProcsOk(procs, next, hand) && ListsOk(next, hand)
  {
    hide AttemptOk;
  }

  lemma LaunchKeeps(procs: Procs, c: Ctrl, hand: set<Epoch>, a: Attempt)
    requires ProcsOk(procs, c, hand) && ListsOk(c, hand) && AttemptOk(a)
    requires a.epoch <= c.last && a.epoch !in SlotEpoch(c) + Epochs(c.quarantine) + hand
    ensures ProcsOk(procs.(launches := procs.launches + [a]), c, hand)
    ensures ProcsOk(Procs(procs.live[procs.nextPid := a.epoch], procs.nextPid + 1, procs.launches + [a]),
                    c, hand + {a.epoch})
    ensures ListsOk(c, hand + {a.epoch})
  {
    hide AttemptOk;
    UnprovenAreHeld(c.quarantine);
  }

  lemma SlotIsRunning(procs: Procs, c: Ctrl, hand: set<Epoch>)
    requires ProcsOk(procs, c, hand) && ListsOk(c, hand) && c.current.Some?
    ensures c.current.value.pid in procs.live && procs.live[c.current.value.pid] == c.current.value.plan.epoch
    ensures c.current.value.plan.epoch !in hand && c.current.value.plan.epoch !in Epochs(c.quarantine)
    ensures c.current.value.plan.epoch <= c.last
  {
  }

  lemma EpochIsFree(procs: Procs, c: Ctrl, hand: set<Epoch>, epoch: Epoch)
    requires ProcsOk(procs, c, hand) && epoch !in SlotEpoch(c) + Epochs(c.quarantine) + hand
    ensures forall p | p in procs.live :: procs.live[p] != epoch && p < procs.nextPid
  {
    UnprovenAreHeld(c.quarantine);
  }

  /** A transaction may answer for an epoch that has no process left. */
  lemma HandGrows(procs: Procs, c: Ctrl, hand: set<Epoch>, epoch: Epoch)
    requires ProcsOk(procs, c, hand) && ListsOk(c, hand)
    requires epoch <= c.last && epoch !in SlotEpoch(c) + Epochs(c.quarantine)
    ensures ProcsOk(procs, c, hand + {epoch}) && ListsOk(c, hand + {epoch})
  {
    hide AttemptOk;
  }

  lemma UnprovenAreHeld(q: seq<Quarantined>)
    ensures Unproven(q) <= Epochs(q)
  {
  }

  lemma LaunchRecorded(procs: Procs, pidFiles: map<Epoch, Pid>, epoch: Epoch, launches: seq<Attempt>)
    requires RecordsOk(procs, pidFiles)
    requires forall p | p in procs.live :: procs.live[p] != epoch && p < procs.nextPid
    ensures RecordsOk(Procs(procs.live[procs.nextPid := epoch], procs.nextPid + 1, launches),
                      pidFiles[epoch := procs.nextPid])
    ensures RecordsOk(procs.(launches := launches), pidFiles)
    ensures RecordsOk(procs.(launches := launches), pidFiles - {epoch})
  {
  }

  lemma NothingAlive(procs: Procs, c: Ctrl)
    requires ProcsOk(procs, c, {}) && c.current.None? && c.quarantine == []
    ensures procs.live == map[]
  {
    assert Unproven(c.quarantine) == {};
    assert procs.live.Keys == {};
  }

  lemma OnlyTheSlot(procs: Procs, c: Ctrl)
    requires ProcsOk(procs, c, {}) && c.current.Some? && c.quarantine == []
    ensures procs.live.Keys == {c.current.value.pid}
  {
    assert Unproven(c.quarantine) == {};
    assert forall p | p in procs.live :: p == c.current.value.pid;
  }

  lemma RemovalKeeps(files: Files, after: Files, epoch: Epoch, last: nat)
    requires FilesOk(files, last) && OnlyRemoves(files, after, epoch)
    ensures FilesOk(after, last)
    ensures forall e | e != epoch && e in files.runtime :: e in after.runtime && after.runtime[e] == files.runtime[e]
  {
  }

  // ---------- Recovery ----------

  /** The list once the death of an epoch's process is on record. */
  function Marked(q: seq<Quarantined>, epoch: Epoch): (m: seq<Quarantined>)
    ensures |m| == |q|
    ensures forall i | 0 <= i < |q| :: m[i] == if q[i].epoch == epoch then Quarantined(epoch, true) else q[i]
  {
    seq(|q|, i requires 0 <= i < |q| => if q[i].epoch == epoch then Quarantined(epoch, true) else q[i])
  }

  function Without(q: seq<Quarantined>, epoch: Epoch): seq<Quarantined> {
    if q == [] then [] else Without(q[..|q| - 1], epoch) + if q[|q| - 1].epoch == epoch then [] else [q[|q| - 1]]
  }

  lemma MarkedEpochs(q: seq<Quarantined>, epoch: Epoch)
    ensures Epochs(Marked(q, epoch)) == Epochs(q) && Unproven(Marked(q, epoch)) == Unproven(q) - {epoch}
    ensures Distinct(q) ==> Distinct(Marked(q, epoch))
    ensures forall x | x in q && x.epoch != epoch :: x in Marked(q, epoch)
  {
    var m := Marked(q, epoch);
    assert forall i | 0 <= i < |q| :: m[i].epoch == q[i].epoch;
    forall e | e in Epochs(q) ensures e in Epochs(m) {
      var i :| 0 <= i < |q| && q[i].epoch == e;
      assert m[i].epoch == e;
    }
    forall e | e in Unproven(q) - {epoch} ensures e in Unproven(m) {
      var i :| 0 <= i < |q| && !q[i].deathProven && q[i].epoch == e;
      assert m[i] == q[i];
    }
    forall x | x in q && x.epoch != epoch ensures x in m {
      var i :| 0 <= i < |q| && q[i] == x;
      assert m[i] == x;
    }
  }

  lemma {:induction false} WithoutMembers(q: seq<Quarantined>, epoch: Epoch, x: Quarantined)
    ensures x in Without(q, epoch) <==> x in q && x.epoch != epoch
  {
    if q != [] {
      var rest := q[..|q| - 1];
      WithoutMembers(rest, epoch, x);
      assert q == rest + [q[|q| - 1]];
    }
  }

  lemma HeldMember(q: seq<Quarantined>, e: Epoch) returns (x: Quarantined)
    requires e in Epochs(q)
    ensures x in q && x.epoch == e
  {
    var i :| 0 <= i < |q| && q[i].epoch == e;
    x := q[i];
  }

  lemma MemberHeld(q: seq<Quarantined>, x: Quarantined)
    requires x in q
    ensures x.epoch in Epochs(q) && (!x.deathProven ==> x.epoch in Unproven(q))
  {
  }

  lemma WithoutEpochs(q: seq<Quarantined>, epoch: Epoch)
    ensures Epochs(Without(q, epoch)) == Epochs(q) - {epoch}
    ensures Unproven(Without(q, epoch)) == Unproven(q) - {epoch}
    ensures forall x | x in q && x.epoch != epoch :: x in Without(q, epoch)
  {
    var w := Without(q, epoch);
    forall x: Quarantined ensures x in w <==> x in q && x.epoch != epoch {
      WithoutMembers(q, epoch, x);
    }
    forall e | e in Epochs(q) - {epoch} ensures e in Epochs(w) {
      var x := HeldMember(q, e);
      MemberHeld(w, x);
    }
    forall e | e in Unproven(q) - {epoch} ensures e in Unproven(w) {
      var i :| 0 <= i < |q| && !q[i].deathProven && q[i].epoch == e;
      MemberHeld(w, q[i]);
    }
    forall e | e in Epochs(w) ensures e in Epochs(q) - {epoch} {
      var x := HeldMember(w, e);
      MemberHeld(q, x);
    }
    forall e | e in Unproven(w) ensures e in Unproven(q) - {epoch} {
      var i :| 0 <= i < |w| && !w[i].deathProven && w[i].epoch == e;
      assert w[i] in w;
      MemberHeld(q, w[i]);
    }
  }

  lemma {:induction false} WithoutDistinct(q: seq<Quarantined>, epoch: Epoch)
    requires Distinct(q)
    ensures Distinct(Without(q, epoch))
  {
    if q != [] {
      var rest, x := q[..|q| - 1], q[|q| - 1];
      assert forall i | 0 <= i < |rest| :: rest[i] == q[i];
      WithoutDistinct(rest, epoch);
      if x.epoch != epoch {
        var w := Without(rest, epoch);
        forall i | 0 <= i < |w| ensures w[i].epoch != x.epoch {
          WithoutMembers(rest, epoch, w[i]);
          var j :| 0 <= j < |rest| && rest[j] == w[i];
          assert q[j].epoch == x.epoch ==> j == |rest|;
        }
      }
    }
  }

  lemma MarkKeeps(procs: Procs, pidFiles: map<Epoch, Pid>, c: Ctrl, epoch: Epoch)
    requires ProcsOk(procs, c, {}) && ListsOk(c, {}) && RecordsOk(procs, pidFiles)
    requires epoch in pidFiles && epoch in Epochs(c.quarantine)
    ensures var next, list := procs.(live := procs.live - {pidFiles[epoch]}),
            c.(quarantine := Marked(c.quarantine, epoch));
      && ProcsOk(next, list, {}) && ListsOk(list, {}) && RecordsOk(next, pidFiles)
  {
    hide AttemptOk, Distinct, Unproven, Epochs;
    MarkedEpochs(c.quarantine, epoch);
    var next, list := procs.(live := procs.live - {pidFiles[epoch]}), c.(quarantine := Marked(c.quarantine, epoch));
    assert SlotEpoch(list) == SlotEpoch(c);
    assert forall p | p in next.live :: next.live[p] != epoch;
  }

  lemma ReleaseKeeps(procs: Procs, c: Ctrl, epoch: Epoch)
    requires ProcsOk(procs, c, {}) && ListsOk(c, {}) && epoch !in Unproven(c.quarantine)
    ensures var list := c.(quarantine := Without(c.quarantine, epoch));
      ProcsOk(procs, list, {}) && ListsOk(list, {})
    ensures epoch in Epochs(c.quarantine) ==> forall p | p in procs.live :: procs.live[p] != epoch
  {
    hide AttemptOk, Distinct, Unproven, Epochs, Without;
    WithoutEpochs(c.quarantine, epoch);
    WithoutDistinct(c.quarantine, epoch);
    var list := c.(quarantine := Without(c.quarantine, epoch));
    assert SlotEpoch(list) == SlotEpoch(c);
  }

  /** How far a recovery has come: entries from `i` on are untouched, and an earlier one
      that could not be released is still there. */
  ghost predicate Pending(was: seq<Quarantined>, q: seq<Quarantined>, i: nat, failed: bool, stuck: nat) {
    && Epochs(q) <= Epochs(was)
    && (if failed then stuck < i <= |was| && was[stuck].epoch in Epochs(q)
        else forall j | 0 <= j < i && j < |was| :: was[j].epoch !in Epochs(q))
    && (forall j | i <= j < |was| :: was[j] in q)
  }

  lemma PendingStep(was: seq<Quarantined>, q: seq<Quarantined>, i: nat, failed: bool, stuck: nat,
                    next: seq<Quarantined>, gone: bool)
    requires Pending(was, q, i, failed, stuck) && Distinct(was) && i < |was|
    requires Epochs(next) == if gone then Epochs(q) - {was[i].epoch} else Epochs(q)
    requires forall x | x in q && x.epoch != was[i].epoch :: x in next
    ensures Pending(was, next, i + 1, failed || !gone, if failed then stuck else i)
  {
    hide Epochs;
    assert was[i] in q;
    MemberHeld(q, was[i]);
  }

  lemma PendingEnds(was: seq<Quarantined>, q: seq<Quarantined>, failed: bool, stuck: nat)
    requires Pending(was, q, |was|, failed, stuck)
    ensures failed <==> q != []
    ensures Epochs(q) <= Epochs(was)
  {
    assert q != [] ==> q[0].epoch in Epochs(q);
  }

  lemma PendingNext(was: seq<Quarantined>, q: seq<Quarantined>, i: nat, failed: bool, stuck: nat)
    requires Pending(was, q, i, failed, stuck) && i < |was|
    ensures was[i] in q
  {
  }

  lemma ProvenEntry(q: seq<Quarantined>, x: Quarantined)
    requires Distinct(q) && x in q && x.deathProven
    ensures x.epoch in Epochs(q) && x.epoch !in Unproven(q)
  {
  }

  // ---------- Orphans ----------

  /** Every artifact belongs to an epoch in `epochs`. */
  ghost predicate Within(files: Files, pidFiles: map<Epoch, Pid>, epochs: set<Epoch>) {
    files.runtime.Keys <= epochs && pidFiles.Keys <= epochs && forall k | k in files.backups :: k.0 in epochs
  }

  lemma WithinShrinks(files: Files, pidFiles: map<Epoch, Pid>, epochs: set<Epoch>, after: Files,
                      records: map<Epoch, Pid>, epoch: Epoch)
    requires Within(files, pidFiles, epochs) && OnlyRemoves(files, after, epoch)
    requires records == pidFiles || records == pidFiles - {epoch}
    requires epoch !in after.runtime && epoch !in records && forall k | k in after.backups :: k.0 != epoch
    ensures Within(after, records, epochs - {epoch})
  {
  }

  /** A sweep with the epochs in `todo` ahead of it: their records are as they were found,
      and what the other records named has been reaped. */
  ghost predicate Reaping(found: map<Epoch, Pid>, records: map<Epoch, Pid>, todo: set<Epoch>, reaped: set<Pid>) {
    && (forall e | e in todo :: e in records <==> e in found)
    && (forall e | e in todo && e in found :: records[e] == found[e])
    && (forall e | e in found && e !in todo :: found[e] in reaped)
    && (forall p | p in reaped :: exists e :: e in found && e !in todo && found[e] == p)
  }

  lemma NoneReaped(found: map<Epoch, Pid>, todo: set<Epoch>)
    requires found.Keys <= todo
    ensures Reaping(found, found, todo, {})
  {
  }

  lemma ReapingNext(found: map<Epoch, Pid>, records: map<Epoch, Pid>, todo: set<Epoch>, reaped: set<Pid>, epoch: Epoch)
    requires Reaping(found, records, todo, reaped) && epoch in todo
    ensures var more := if epoch in records then reaped + {records[epoch]} else reaped;
      Reaping(found, records, todo - {epoch}, more) && Reaping(found, records - {epoch}, todo - {epoch}, more)
  {
    var more := if epoch in records then reaped + {records[epoch]} else reaped;
    forall p | p in more ensures exists e :: e in found && e !in todo - {epoch} && found[e] == p {
      if p in reaped {
        var e :| e in found && e !in todo && found[e] == p;
        assert e !in todo - {epoch};
      } else {
        assert found[epoch] == p;
      }
    }
  }

  lemma AllReaped(found: map<Epoch, Pid>, records: map<Epoch, Pid>, reaped: set<Pid>)
    requires Reaping(found, records, {}, reaped)
    ensures reaped == found.Values
  {
    forall p | p in found.Values ensures p in reaped {
      var e :| e in found && found[e] == p;
    }
  }

  lemma NoneLeft(live: map<Pid, Epoch>, named: set<Pid>)
    ensures live - named == map[] <==> live.Keys <= named
  {
    if live - named == map[] {
      forall p | p in live ensures p in named {
        assert p !in live - named;
      }
    } else {
      var p :| p in live - named;
    }
  }

  lemma ReapedTwice(live: map<Pid, Epoch>, reaped: set<Pid>, pid: Pid)
    ensures live - reaped - {pid} == live - (reaped + {pid})
  {
  }

  lemma AttemptIsOk(a: Attempt)
    requires a.onDisk == Some(a.planned) && (a.bootstrap ==> Harmless(a.planned))
    requires a.mayLive <= if a.bootstrap && a.slot.Some? then {a.slot.value} else {}
    ensures AttemptOk(a)
  {
    hide Harmless;
  }
}
