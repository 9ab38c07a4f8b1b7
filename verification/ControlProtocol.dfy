/**
 The control plane as a state machine: callers submit and shut down concurrently, and
 one executor takes work off a bounded queue. Each step is one atomic access to the
 registry, the queue or the closing latch; a run is any interleaving of steps.
 */
module ControlProtocol {
  import opened Prelude
  import opened ControlRegistry

  datatype Work = Work(id: Id, digest: string, shutdown: bool)

  datatype Exit = Clean | Died

  /** Where the executor is. */
  datatype Phase =
    | Waiting
    | Holding(work: Work)
    | Refusing(work: Work)
    | Starting(work: Work)
    | Executing(work: Work)
    | Panicked
    | Ending(exit: Exit)
    | Draining(exit: Exit)
    | Discarding(exit: Exit, work: Work)
    | Exited(exit: Exit)

  datatype Event = Refused(sequence: nat) | Started(sequence: nat, shutdown: bool)

  /**
   `permits` are reserved queue places; `pending` are submits between their look at the
   latch and their admission, `latching` submits of a shutdown between admission and the
   latch, and `waiting` shutdown callers without a place yet. `dequeued` and `events` are
   the history: sequence numbers in dequeue order, and what became of what was dequeued.
   */
  datatype State = State(
    reg: Reg, capacity: nat, queueCapacity: nat, queue: seq<Work>, permits: nat, closed: bool, closing: bool,
    handles: bool, phase: Phase, pending: seq<Work>, latching: nat, waiting: nat,
    dequeued: seq<nat>, events: seq<Event>)

  datatype Step =
    | SubmitCheck(work: Work)
    | SubmitAdmit(i: nat)
    | SubmitLatch
    | ShutdownLatch
    | Reserve
    | ReserveFailed
    | WaitDropped
    | ShutdownAdmit(work: Work)
    | DropHandles
    | Receive
    | ReceiveNone
    | Check
    | Refuse
    | Start
    | Finish(ok: bool)
    | Panic
    | StoreClosing
    | Close
    | DrainReceive
    | DrainSet
    | DrainNone

  function Initial(registryCapacity: nat, queueCapacity: nat): State {
    State(Reg(map[], [], 0), LiveCapacity(registryCapacity, queueCapacity), queueCapacity, [], 0, false, false,
          true, Waiting, [], 0, 0, [], [])
  }

  // ---------- Steps ----------

  function Hand(phase: Phase): Option<Work> {
    match phase
    case Holding(w) => Some(w)
    case Refusing(w) => Some(w)
    case Starting(w) => Some(w)
    case Executing(w) => Some(w)
    case Discarding(_, w) => Some(w)
    case _ => None
  }

  predicate HasRoom(s: State) {
    !s.closed && |s.queue| + s.permits < s.queueCapacity
  }

  predicate Enabled(s: State, step: Step) {
    match step
    case SubmitCheck(_) => s.handles && !s.closing
    case SubmitAdmit(i) => i < |s.pending|
    case SubmitLatch => s.latching > 0
    case ShutdownLatch => s.handles
    case Reserve => s.waiting > 0 && HasRoom(s)
    case ReserveFailed => s.waiting > 0 && s.closed
    case WaitDropped => s.waiting > 0
    case ShutdownAdmit(work) => s.permits > 0 && work.shutdown
    case DropHandles => s.pending == [] && s.latching == 0 && s.waiting == 0 && s.permits == 0
    case Receive => s.phase.Waiting? && s.queue != []
    case ReceiveNone => s.phase.Waiting? && s.queue == [] && !s.handles
    case Check => s.phase.Holding?
    case Refuse => s.phase.Refusing?
    case Start => s.phase.Starting?
    case Finish(_) => s.phase.Executing?
    case Panic => s.phase.Executing?
    case StoreClosing => s.phase.Panicked?
    case Close => s.phase.Ending?
    case DrainReceive => s.phase.Draining? && s.queue != []
    case DrainSet => s.phase.Discarding?
    case DrainNone => s.phase.Draining? && s.queue == [] && s.permits == 0
  }

  /** Registers the work and puts it on the queue if `accepted` and new. */
  function Admitted(s: State, work: Work, accepted: bool): State {
    var (reg, admission) := AdmitSpec(s.reg, s.capacity, work.id, work.digest, accepted);
    s.(reg := reg, queue := if admission.Registered? then s.queue + [work] else s.queue)
  }

  function IsRegistered(s: State, work: Work, accepted: bool): bool {
    AdmitSpec(s.reg, s.capacity, work.id, work.digest, accepted).1.Registered?
  }

  function Set(s: State, id: Id, state: OpState, phase: Phase): State {
    s.(reg := SetState(s.reg, id, state), phase := phase)
  }

  /** How the drain ends what is still queued: only a clean exit accomplished a shutdown. */
  function Leftover(exit: Exit, work: Work): OpState {
    if exit.Clean? && work.shutdown then Succeeded else Failed
  }

  function SequenceOf(reg: Reg, id: Id): nat {
    if id in reg.ops then reg.ops[id].sequence else 0
  }

  function Took(s: State, phase: Phase): State
    requires s.queue != []
  {
    s.(queue := s.queue[1..], phase := phase, dequeued := s.dequeued + [SequenceOf(s.reg, s.queue[0].id)])
  }

  function Next(s: State, step: Step): State
    requires Enabled(s, step)
  {
    match step
    case SubmitCheck(work) => s.(pending := s.pending + [work])
    case SubmitAdmit(i) =>
      var work, accepted := s.pending[i], HasRoom(s);
      Admitted(s, work, accepted).(
        pending := s.pending[..i] + s.pending[i + 1..],
        latching := s.latching + if work.shutdown && IsRegistered(s, work, accepted) then 1 else 0)
    case SubmitLatch => s.(closing := true, latching := s.latching - 1)
    case ShutdownLatch => s.(closing := true, waiting := s.waiting + 1)
    case Reserve => s.(permits := s.permits + 1, waiting := s.waiting - 1)
    case ReserveFailed => s.(waiting := s.waiting - 1)
    case WaitDropped => s.(waiting := s.waiting - 1)
    case ShutdownAdmit(work) => Admitted(s, work, true).(permits := s.permits - 1)
    case DropHandles => s.(handles := false)
    case Receive => Took(s, Holding(s.queue[0]))
    case ReceiveNone => s.(phase := Ending(Clean))
    case Check =>
      var work := s.phase.work;
      if !work.shutdown && s.closing
      then s.(phase := Refusing(work), events := s.events + [Refused(SequenceOf(s.reg, work.id))])
      else s.(phase := Starting(work))
    case Refuse => Set(s, s.phase.work.id, Failed, Waiting)
    case Start =>
      var work := s.phase.work;
      Set(s, work.id, Running, Executing(work)).(
        events := s.events + [Started(SequenceOf(s.reg, work.id), work.shutdown)])
    case Finish(ok) =>
      Set(s, s.phase.work.id, if ok then Succeeded else Failed,
          if s.phase.work.shutdown then Ending(Clean) else Waiting)
    case Panic => Set(s, s.phase.work.id, Failed, Panicked)
    case StoreClosing => s.(closing := true, phase := Ending(Died))
    case Close => s.(closed := true, phase := Draining(s.phase.exit))
    case DrainReceive => Took(s, Discarding(s.phase.exit, s.queue[0]))
    case DrainSet => Set(s, s.phase.work.id, Leftover(s.phase.exit, s.phase.work), Draining(s.phase.exit))
    case DrainNone => s.(phase := Exited(s.phase.exit))
  }

  // ---------- What every step keeps ----------

  ghost function Ids(queue: seq<Work>): set<Id> {
    set i | 0 <= i < |queue| :: queue[i].id
  }

  ghost predicate DistinctIds(queue: seq<Work>) {
    forall i, j | 0 <= i < |queue| && 0 <= j < |queue| && queue[i].id == queue[j].id :: i == j
  }

  ghost predicate Holds(ops: map<Id, Entry>, ids: set<Id>, state: OpState) {
    forall id | id in ids :: id in ops && ops[id].state == state
  }

  ghost predicate RestDone(ops: map<Id, Entry>, ids: set<Id>) {
    forall id | id in ops && id !in ids :: IsTerminal(ops[id].state)
  }

  ghost function InHand(hand: Option<Work>): set<Id> {
    if hand.Some? then {hand.value.id} else {}
  }

  /** The unfinished operations are the queued ones and the one in hand, each once. */
  ghost predicate LiveOk(ops: map<Id, Entry>, queue: seq<Work>, hand: Option<Work>, running: bool) {
    && DistinctIds(queue) && InHand(hand) !! Ids(queue)
    && Holds(ops, Ids(queue), Queued) && Holds(ops, InHand(hand), if running then Running else Queued)
    && RestDone(ops, Ids(queue) + InHand(hand))
  }

  ghost function Sequences(reg: Reg, queue: seq<Work>): seq<nat> {
    seq(|queue|, i requires 0 <= i < |queue| => SequenceOf(reg, queue[i].id))
  }

  ghost predicate Increasing(line: seq<nat>, next: nat) {
    && (forall i | 0 <= i < |line| :: line[i] < next)
    && (forall i, j | 0 <= i < j < |line| :: line[i] < line[j])
  }

  /** Dequeued so far, followed by the queue, is in sequence order. */
  ghost predicate OrderOk(reg: Reg, queue: seq<Work>, dequeued: seq<nat>) {
    Increasing(dequeued + Sequences(reg, queue), reg.next)
  }

  ghost predicate SizeOk(s: State) {
    && |s.queue| + s.permits <= s.queueCapacity && s.queueCapacity < s.capacity
    && |s.reg.ops| <= s.capacity
  }

  /** Once a look at the latch led to a refusal, only a shutdown starts. */
  ghost predicate LatchHolds(events: seq<Event>) {
    forall i, j | 0 <= i < j < |events| && events[i].Refused? :: !OrdinaryStart(events[j])
  }

  predicate OrdinaryStart(e: Event) {
    e.Started? && !e.shutdown
  }

  ghost predicate AnyRefused(events: seq<Event>) {
    exists i | 0 <= i < |events| :: events[i].Refused?
  }

  ghost predicate AnyShutdown(events: seq<Event>) {
    exists i | 0 <= i < |events| :: events[i].Started? && events[i].shutdown
  }

  ghost predicate HasStarted(events: seq<Event>, sequence: nat) {
    Started(sequence, true) in events || Started(sequence, false) in events
  }

  ghost predicate LatchOk(s: State) {
    && LatchHolds(s.events)
    && (AnyRefused(s.events) ==> s.closing && (s.phase.Starting? ==> s.phase.work.shutdown))
  }

  predicate EndsClean(phase: Phase) {
    (phase.Ending? || phase.Draining? || phase.Discarding? || phase.Exited?) && phase.exit.Clean?
  }

  /** A clean end means that a shutdown ran, or that nobody was left to submit anything. */
  ghost predicate PhaseOk(s: State) {
    && (s.phase.Executing? && s.phase.work.shutdown ==> AnyShutdown(s.events))
    && (EndsClean(s.phase) ==> AnyShutdown(s.events) || !s.handles)
    && (s.closed <==> s.phase.Draining? || s.phase.Discarding? || s.phase.Exited?)
    && (s.phase.Exited? ==> s.queue == [] && s.permits == 0)
    && (!s.handles ==> s.pending == [] && s.latching == 0 && s.waiting == 0 && s.permits == 0)
  }

  function Decided(events: seq<Event>): (r: seq<nat>)
    ensures |r| == |events|
    ensures forall i | 0 <= i < |events| :: r[i] == events[i].sequence
  {
    seq(|events|, i requires 0 <= i < |events| => events[i].sequence)
  }

  /** Whether what was dequeued last is still undecided. */
  predicate Undecided(phase: Phase) {
    phase.Holding? || phase.Starting?
  }

  /** What has been decided lies below this sequence number. */
  function Frontier(dequeued: seq<nat>, undecided: bool): nat {
    if dequeued == [] then 0 else dequeued[|dequeued| - 1] + if undecided then 0 else 1
  }

  /** The one in hand was dequeued last. */
  ghost predicate HandOk(reg: Reg, hand: Option<Work>, dequeued: seq<nat>) {
    hand.Some? ==> dequeued != [] && dequeued[|dequeued| - 1] == SequenceOf(reg, hand.value.id)
  }

  /** Nothing is decided twice or out of turn. */
  ghost predicate OnceOk(reg: Reg, phase: Phase, dequeued: seq<nat>, events: seq<Event>) {
    && HandOk(reg, Hand(phase), dequeued)
    && Increasing(Decided(events), Frontier(dequeued, Undecided(phase)))
  }

  /** Whatever runs or has succeeded was started, except a shutdown that a clean end settled. */
  ghost predicate StartedOk(ops: map<Id, Entry>, events: seq<Event>, clean: bool) {
    forall id | id in ops ::
      && (ops[id].state.Running? ==> HasStarted(events, ops[id].sequence))
      && (ops[id].state.Succeeded? ==> clean || HasStarted(events, ops[id].sequence))
  }

  ghost predicate HistoryOk(s: State) {
    OnceOk(s.reg, s.phase, s.dequeued, s.events) && StartedOk(s.reg.ops, s.events, EndsClean(s.phase))
  }

  ghost predicate Inv(s: State) {
    && RegOk(s.reg) && LiveOk(s.reg.ops, s.queue, Hand(s.phase), s.phase.Executing?)
    && OrderOk(s.reg, s.queue, s.dequeued) && SizeOk(s) && LatchOk(s) && PhaseOk(s) && HistoryOk(s)
  }

  lemma InitialOk(registryCapacity: nat, queueCapacity: nat)
    ensures Inv(Initial(registryCapacity, queueCapacity))
  {
  }

  // ---------- Admission ----------

  lemma IdsSnoc(queue: seq<Work>, work: Work)
    ensures Ids(queue + [work]) == Ids(queue) + {work.id}
  {
    var q := queue + [work];
    assert q[|queue|] == work;
    forall id | id in Ids(queue) ensures id in Ids(q) {
      var i :| 0 <= i < |queue| && queue[i].id == id;
      assert q[i].id == id;
    }
  }

  lemma IdsCons(queue: seq<Work>)
    requires queue != []
    ensures Ids(queue) == {queue[0].id} + Ids(queue[1..])
  {
    var q := queue[1..];
    forall id | id in Ids(queue) ensures id in {queue[0].id} + Ids(q) {
      var i :| 0 <= i < |queue| && queue[i].id == id;
      if i > 0 {
        assert q[i - 1].id == id;
      }
    }
  }

  lemma {:induction false} IdsCount(queue: seq<Work>)
    ensures |Ids(queue)| <= |queue|
  {
    if queue != [] {
      var rest := queue[..|queue| - 1];
      IdsCount(rest);
      IdsSnoc(rest, queue[|queue| - 1]);
      assert queue == rest + [queue[|queue| - 1]];
    }
  }

  lemma LiveEvict(ops: map<Id, Entry>, kept: map<Id, Entry>, queue: seq<Work>, hand: Option<Work>, running: bool)
    requires LiveOk(ops, queue, hand, running)
    requires forall id | id in kept :: id in ops && kept[id] == ops[id]
    requires forall id | id in ops && !IsTerminal(ops[id].state) :: id in kept
    ensures LiveOk(kept, queue, hand, running)
  {
    hide DistinctIds;
  }

  lemma LiveInsert(ops: map<Id, Entry>, queue: seq<Work>, hand: Option<Work>, running: bool, work: Work, entry: Entry)
    requires LiveOk(ops, queue, hand, running) && work.id !in ops && entry.state == Queued
    ensures LiveOk(ops[work.id := entry], queue + [work], hand, running)
  {
    hide Ids, DistinctIds;
    IdsSnoc(queue, work);
    DistinctSnoc(queue, work);
  }

  lemma DistinctSnoc(queue: seq<Work>, work: Work)
    requires DistinctIds(queue) && work.id !in Ids(queue)
    ensures DistinctIds(queue + [work])
  {
    forall i | 0 <= i < |queue| ensures queue[i].id != work.id {
      assert queue[i].id in Ids(queue);
    }
  }

  /** With no finished operation left, the registry is no larger than the queue and the hand. */
  lemma LiveCount(ops: map<Id, Entry>, queue: seq<Work>, hand: Option<Work>, running: bool)
    requires LiveOk(ops, queue, hand, running) && forall id | id in ops :: !IsTerminal(ops[id].state)
    ensures |ops| <= |queue| + 1
  {
    IdsCount(queue);
    assert ops.Keys <= Ids(queue) + InHand(hand);
    SubsetIsSmaller(ops.Keys, Ids(queue) + InHand(hand));
    assert |Ids(queue) + InHand(hand)| <= |Ids(queue)| + |InHand(hand)|;
  }

  lemma OrderEvict(reg: Reg, kept: Reg, queue: seq<Work>, dequeued: seq<nat>)
    requires OrderOk(reg, queue, dequeued) && reg.next <= kept.next
    requires forall i | 0 <= i < |queue| :: SequenceOf(kept, queue[i].id) == SequenceOf(reg, queue[i].id)
    ensures OrderOk(kept, queue, dequeued)
  {
    assert Sequences(kept, queue) == Sequences(reg, queue);
  }

  lemma OrderInsert(reg: Reg, queue: seq<Work>, dequeued: seq<nat>, work: Work)
    requires OrderOk(reg, queue, dequeued) && work.id !in reg.ops && Ids(queue) <= reg.ops.Keys
    ensures OrderOk(Insert(reg, work.id, work.digest), queue + [work], dequeued)
  {
    var t, q := Insert(reg, work.id, work.digest), queue + [work];
    forall i | 0 <= i < |queue| ensures SequenceOf(t, q[i].id) == SequenceOf(reg, queue[i].id) {
      assert queue[i].id in Ids(queue);
    }
    assert Sequences(t, q) == Sequences(reg, queue) + [reg.next];
    assert dequeued + Sequences(t, q) == dequeued + Sequences(reg, queue) + [reg.next];
  }

  /** Room is made by evicting finished operations only; with a place on the queue free,
      that is always enough. */
  lemma EvictStep(s: State)
    requires Inv(s)
    ensures var room := Evicted(s.reg, s.capacity);
      && RegOk(room) && LiveOk(room.ops, s.queue, Hand(s.phase), s.phase.Executing?)
      && OrderOk(room, s.queue, s.dequeued) && |room.ops| <= s.capacity && room.next == s.reg.next
      && (|s.queue| < s.queueCapacity ==> |room.ops| < s.capacity)
  {
    hide RegOk, LiveOk, OrderOk, Evicted;
    var room, hand, running := Evicted(s.reg, s.capacity), Hand(s.phase), s.phase.Executing?;
    EvictedOk(s.reg, s.capacity);
    LiveEvict(s.reg.ops, room.ops, s.queue, hand, running);
    QueuedSequences(s.reg, room, s.queue, hand, running);
    OrderEvict(s.reg, room, s.queue, s.dequeued);
    if |room.ops| >= s.capacity {
      LiveCount(room.ops, s.queue, hand, running);
    }
  }

  lemma QueuedSequences(reg: Reg, kept: Reg, queue: seq<Work>, hand: Option<Work>, running: bool)
    requires LiveOk(kept.ops, queue, hand, running)
    requires forall id | id in kept.ops :: id in reg.ops && kept.ops[id] == reg.ops[id]
    ensures forall i | 0 <= i < |queue| :: SequenceOf(kept, queue[i].id) == SequenceOf(reg, queue[i].id)
  {
    forall i | 0 <= i < |queue| ensures SequenceOf(kept, queue[i].id) == SequenceOf(reg, queue[i].id) {
      assert queue[i].id in Ids(queue);
    }
  }

  lemma QueuedAreRegistered(ops: map<Id, Entry>, queue: seq<Work>, hand: Option<Work>, running: bool)
    requires LiveOk(ops, queue, hand, running)
    ensures Ids(queue) <= ops.Keys
  {
  }

  lemma AdmitStep(s: State, work: Work, accepted: bool)
    requires Inv(s) && (accepted ==> |s.queue| < s.queueCapacity)
    ensures var t := Admitted(s, work, accepted);
      && RegOk(t.reg) && LiveOk(t.reg.ops, t.queue, Hand(s.phase), s.phase.Executing?)
      && OrderOk(t.reg, t.queue, s.dequeued) && |t.reg.ops| <= s.capacity
      && |t.queue| <= |s.queue| + (if accepted then 1 else 0) && (s.queue == t.queue || accepted)
  {
    hide RegOk, LiveOk, OrderOk, Evicted;
    if work.id !in s.reg.ops {
      var room, hand, running := Evicted(s.reg, s.capacity), Hand(s.phase), s.phase.Executing?;
      EvictStep(s);
      if accepted {
        EvictedOk(s.reg, s.capacity);
        InsertKeepsOk(room, work.id, work.digest);
        LiveInsert(room.ops, s.queue, hand, running, work, Entry(work.digest, room.next, Queued));
        QueuedAreRegistered(room.ops, s.queue, hand, running);
        OrderInsert(room, s.queue, s.dequeued, work);
      } else {
        SkipSequence(room, s.queue, s.dequeued);
      }
    }
  }

  lemma SkipSequence(reg: Reg, queue: seq<Work>, dequeued: seq<nat>)
    requires RegOk(reg) && OrderOk(reg, queue, dequeued)
    ensures RegOk(reg.(next := reg.next + 1)) && OrderOk(reg.(next := reg.next + 1), queue, dequeued)
  {
    OrderEvict(reg, reg.(next := reg.next + 1), queue, dequeued);
  }

  // ---------- The executor ----------

  lemma TakeStep(s: State, phase: Phase)
    requires Inv(s) && s.queue != [] && Hand(s.phase).None? && Hand(phase) == Some(s.queue[0]) && !phase.Executing?
    ensures var t := Took(s, phase);
      LiveOk(t.reg.ops, t.queue, Hand(phase), false) && OrderOk(t.reg, t.queue, t.dequeued)
  {
    hide RegOk, Ids;
    var t := Took(s, phase);
    IdsCons(s.queue);
    NotAgain(s.queue);
    assert Sequences(s.reg, s.queue) == [SequenceOf(s.reg, s.queue[0].id)] + Sequences(t.reg, t.queue);
    assert t.dequeued + Sequences(t.reg, t.queue) == s.dequeued + Sequences(s.reg, s.queue);
  }

  lemma NotAgain(queue: seq<Work>)
    requires queue != [] && DistinctIds(queue)
    ensures queue[0].id !in Ids(queue[1..]) && DistinctIds(queue[1..])
  {
    var q := queue[1..];
    forall i | 0 <= i < |q| ensures q[i].id != queue[0].id {
      assert q[i] == queue[i + 1];
    }
    forall i, j | 0 <= i < |q| && 0 <= j < |q| && q[i].id == q[j].id ensures i == j {
      assert queue[i + 1].id == queue[j + 1].id;
    }
  }

  /** The one in hand changes state, and leaves the hand when it is finished. */
  lemma SetStep(s: State, id: Id, state: OpState, phase: Phase)
    requires Inv(s) && Hand(s.phase).Some? && Hand(s.phase).value.id == id
    requires if IsTerminal(state) then Hand(phase).None?
             else state.Running? && phase.Executing? && Hand(phase) == Hand(s.phase)
    ensures var t := Set(s, id, state, phase);
      && RegOk(t.reg) && LiveOk(t.reg.ops, t.queue, Hand(phase), phase.Executing?)
      && OrderOk(t.reg, t.queue, t.dequeued) && |t.reg.ops| == |s.reg.ops|
  {
    hide RegOk, OrderOk, DistinctIds, Ids;
    SetKeepsOk(s.reg, id, state);
    var t := Set(s, id, state, phase);
    assert |t.reg.ops| == |t.reg.ops.Keys|;
    OrderEvict(s.reg, t.reg, s.queue, s.dequeued);
  }

  lemma RefusedLater(events: seq<Event>, e: Event)
    requires LatchHolds(events) && (AnyRefused(events) ==> !OrdinaryStart(e))
    ensures LatchHolds(events + [e])
    ensures AnyRefused(events + [e]) <==> AnyRefused(events) || e.Refused?
    ensures AnyShutdown(events + [e]) <==> AnyShutdown(events) || (e.Started? && e.shutdown)
    ensures forall q: nat :: HasStarted(events, q) ==> HasStarted(events + [e], q)
    ensures e.Started? ==> HasStarted(events + [e], e.sequence)
  {
    var t := events + [e];
    assert t[|events|] == e;
    assert forall i | 0 <= i < |events| :: t[i] == events[i];
  }

  // ---------- The history ----------

  lemma FrontierMoves(reg: Reg, queue: seq<Work>, dequeued: seq<nat>)
    requires OrderOk(reg, queue, dequeued) && queue != []
    ensures Frontier(dequeued, false) <= SequenceOf(reg, queue[0].id)
  {
    var line := dequeued + Sequences(reg, queue);
    assert line[|dequeued|] == SequenceOf(reg, queue[0].id);
    if dequeued != [] {
      assert line[|dequeued| - 1] == dequeued[|dequeued| - 1];
    }
  }

  /** Dequeuing moves the frontier to what is now in hand. */
  lemma TakeHistory(s: State, phase: Phase)
    requires Inv(s) && s.queue != [] && Hand(s.phase).None? && Hand(phase) == Some(s.queue[0])
    requires EndsClean(s.phase) == EndsClean(phase)
    ensures HistoryOk(Took(s, phase))
  {
    hide RegOk, LiveOk, LatchOk, PhaseOk, OrderOk, StartedOk;
    FrontierMoves(s.reg, s.queue, s.dequeued);
  }

  /** Deciding on the one in hand. */
  lemma DecideHistory(reg: Reg, phase: Phase, dequeued: seq<nat>, events: seq<Event>, e: Event, phase': Phase)
    requires OnceOk(reg, phase, dequeued, events) && Undecided(phase) && Hand(phase') == Hand(phase)
    requires e.sequence == SequenceOf(reg, Hand(phase).value.id) && !Undecided(phase')
    ensures OnceOk(reg, phase', dequeued, events + [e])
  {
    assert Decided(events + [e]) == Decided(events) + [e.sequence];
  }

  lemma OnceSame(reg: Reg, phase: Phase, dequeued: seq<nat>, events: seq<Event>, reg': Reg, phase': Phase)
    requires OnceOk(reg, phase, dequeued, events) && (Undecided(phase') ==> Undecided(phase))
    requires Hand(phase').Some? ==>
      Hand(phase') == Hand(phase) && SequenceOf(reg', Hand(phase).value.id) == SequenceOf(reg, Hand(phase).value.id)
    ensures OnceOk(reg', phase', dequeued, events)
  {
  }

  lemma StartedSet(ops: map<Id, Entry>, events: seq<Event>, clean: bool, id: Id, state: OpState, more: seq<Event>,
                   clean': bool)
    requires StartedOk(ops, events, clean) && id in ops && (clean ==> clean')
    requires forall q: nat :: HasStarted(events, q) ==> HasStarted(more, q)
    requires state.Running? || (state.Succeeded? && !clean') ==> HasStarted(more, ops[id].sequence)
    ensures StartedOk(ops[id := ops[id].(state := state)], more, clean')
  {
    hide HasStarted;
  }

  /** Setting the state of the one in hand, with the same events. */
  lemma SetHistory(s: State, state: OpState, phase: Phase)
    requires Inv(s) && Hand(s.phase).Some? && Hand(phase).None? && IsTerminal(state)
    requires EndsClean(s.phase) ==> EndsClean(phase)
    requires state.Succeeded? ==> s.phase.Executing? || EndsClean(phase)
    ensures HistoryOk(Set(s, Hand(s.phase).value.id, state, phase))
  {
    hide RegOk, OrderOk, SizeOk, LatchOk, PhaseOk, HasStarted, Increasing, Decided;
    var id := Hand(s.phase).value.id;
    HandState(s);
    OnceSame(s.reg, s.phase, s.dequeued, s.events, SetState(s.reg, id, state), phase);
    StartedSet(s.reg.ops, s.events, EndsClean(s.phase), id, state, s.events, EndsClean(phase));
  }

  /** Registering keeps the history: what goes is finished, what comes is queued. */
  lemma AdmitHistory(s: State, work: Work, accepted: bool)
    requires Inv(s)
    ensures var t := Admitted(s, work, accepted);
      && OnceOk(t.reg, s.phase, s.dequeued, s.events) && StartedOk(t.reg.ops, s.events, EndsClean(s.phase))
  {
    hide RegOk, OrderOk, SizeOk, LatchOk, PhaseOk, HasStarted, Increasing, Decided, Evicted, LiveOk;
    if Hand(s.phase).Some? {
      HandState(s);
    }
    EvictedOk(s.reg, s.capacity);
    OnceSame(s.reg, s.phase, s.dequeued, s.events, Admitted(s, work, accepted).reg, s.phase);
  }

  lemma CallerStep(s: State, step: Step)
    requires Inv(s) && Enabled(s, step)
    requires step.SubmitCheck? || step.SubmitAdmit? || step.SubmitLatch? || step.ShutdownLatch? || step.Reserve?
          || step.ReserveFailed? || step.WaitDropped? || step.ShutdownAdmit? || step.DropHandles?
    ensures Inv(Next(s, step))
  {
    hide RegOk, LiveOk, OrderOk, LatchHolds, AdmitSpec, OnceOk, StartedOk, AnyRefused, AnyShutdown;
    match step
    case SubmitAdmit(i) =>
      AdmitStep(s, s.pending[i], HasRoom(s));
      AdmitHistory(s, s.pending[i], HasRoom(s));
    case ShutdownAdmit(work) =>
      AdmitStep(s, work, true);
      AdmitHistory(s, work, true);
    case _ =>
  }

  lemma DequeueStep(s: State, step: Step)
    requires Inv(s) && Enabled(s, step)
    requires step.Receive? || step.ReceiveNone? || step.Check?
    ensures Inv(Next(s, step))
  {
    hide RegOk, LiveOk, OrderOk, LatchHolds, OnceOk, StartedOk, AnyRefused, AnyShutdown, HasStarted;
    match step
    case Receive =>
      TakeStep(s, Holding(s.queue[0]));
      TakeHistory(s, Holding(s.queue[0]));
    case ReceiveNone =>
      OnceSame(s.reg, s.phase, s.dequeued, s.events, s.reg, Ending(Clean));
      StartedLenient(s.reg.ops, s.events, false, true);
    case Check => CheckStep(s);
  }

  lemma StartedLenient(ops: map<Id, Entry>, events: seq<Event>, clean: bool, clean': bool)
    requires StartedOk(ops, events, clean) && (clean ==> clean')
    ensures StartedOk(ops, events, clean')
  {
    hide HasStarted;
  }

  lemma StartedMore(ops: map<Id, Entry>, events: seq<Event>, clean: bool, more: seq<Event>)
    requires StartedOk(ops, events, clean) && forall q: nat :: HasStarted(events, q) ==> HasStarted(more, q)
    ensures StartedOk(ops, more, clean)
  {
    hide HasStarted;
  }

  lemma CheckStep(s: State)
    requires Inv(s) && s.phase.Holding?
    ensures Inv(Next(s, Check))
  {
    hide RegOk, LiveOk, OrderOk, LatchHolds, OnceOk, StartedOk, AnyRefused, AnyShutdown, HasStarted;
    var work := s.phase.work;
    var e := Refused(SequenceOf(s.reg, work.id));
    if !work.shutdown && s.closing {
      RefusedLater(s.events, e);
      DecideHistory(s.reg, s.phase, s.dequeued, s.events, e, Refusing(work));
      StartedMore(s.reg.ops, s.events, false, s.events + [e]);
    } else {
      OnceSame(s.reg, s.phase, s.dequeued, s.events, s.reg, Starting(work));
    }
  }

  lemma StartStep(s: State)
    requires Inv(s) && s.phase.Starting?
    ensures Inv(Next(s, Start))
  {
    hide RegOk, LiveOk, OrderOk, LatchHolds, OnceOk, StartedOk, AnyRefused, AnyShutdown, HasStarted;
    var work := s.phase.work;
    var e := Started(SequenceOf(s.reg, work.id), work.shutdown);
    HandState(s);
    RefusedLater(s.events, e);
    SetStep(s, work.id, Running, Executing(work));
    DecideHistory(s.reg, s.phase, s.dequeued, s.events, e, Executing(work));
    OnceSame(s.reg, Executing(work), s.dequeued, s.events + [e], SetState(s.reg, work.id, Running), Executing(work));
    StartedSet(s.reg.ops, s.events, false, work.id, Running, s.events + [e], false);
  }

  lemma ExecuteStep(s: State, step: Step)
    requires Inv(s) && Enabled(s, step)
    requires step.Refuse? || step.Start? || step.Finish? || step.Panic?
    ensures Inv(Next(s, step))
  {
    hide RegOk, LiveOk, OrderOk, LatchHolds, SetState, OnceOk, StartedOk, AnyRefused, AnyShutdown;
    match step
    case Refuse =>
      SetStep(s, s.phase.work.id, Failed, Waiting);
      SetHistory(s, Failed, Waiting);
    case Start => StartStep(s);
    case Finish(ok) => FinishStep(s, ok);
    case Panic =>
      SetStep(s, s.phase.work.id, Failed, Panicked);
      SetHistory(s, Failed, Panicked);
  }

  lemma FinishStep(s: State, ok: bool)
    requires Inv(s) && s.phase.Executing?
    ensures Inv(Next(s, Finish(ok)))
  {
    hide RegOk, LiveOk, OrderOk, LatchHolds, SetState, OnceOk, StartedOk, AnyRefused, AnyShutdown;
    var state, phase := if ok then Succeeded else Failed, if s.phase.work.shutdown then Ending(Clean) else Waiting;
    SetStep(s, s.phase.work.id, state, phase);
    SetHistory(s, state, phase);
  }

  lemma EndStep(s: State, step: Step)
    requires Inv(s) && Enabled(s, step)
    requires step.StoreClosing? || step.Close? || step.DrainReceive? || step.DrainSet? || step.DrainNone?
    ensures Inv(Next(s, step))
  {
    hide RegOk, LiveOk, OrderOk, LatchHolds, SetState, OnceOk, StartedOk, AnyRefused, AnyShutdown;
    match step
    case DrainReceive =>
      TakeStep(s, Discarding(s.phase.exit, s.queue[0]));
      TakeHistory(s, Discarding(s.phase.exit, s.queue[0]));
    case DrainSet =>
      SetStep(s, s.phase.work.id, Leftover(s.phase.exit, s.phase.work), Draining(s.phase.exit));
      SetHistory(s, Leftover(s.phase.exit, s.phase.work), Draining(s.phase.exit));
    case StoreClosing => OnceSame(s.reg, s.phase, s.dequeued, s.events, s.reg, Ending(Died));
    case Close => OnceSame(s.reg, s.phase, s.dequeued, s.events, s.reg, Draining(s.phase.exit));
    case DrainNone => OnceSame(s.reg, s.phase, s.dequeued, s.events, s.reg, Exited(s.phase.exit));
  }

  /** Every step of every caller and of the executor keeps the invariant. */
  lemma StepKeepsInv(s: State, step: Step)
    requires Inv(s) && Enabled(s, step)
    ensures Inv(Next(s, step))
  {
    hide Inv, Next;
    match step
    case SubmitCheck(_) => CallerStep(s, step);
    case SubmitAdmit(_) => CallerStep(s, step);
    case SubmitLatch => CallerStep(s, step);
    case ShutdownLatch => CallerStep(s, step);
    case Reserve => CallerStep(s, step);
    case ReserveFailed => CallerStep(s, step);
    case WaitDropped => CallerStep(s, step);
    case ShutdownAdmit(_) => CallerStep(s, step);
    case DropHandles => CallerStep(s, step);
    case StoreClosing => EndStep(s, step);
    case Close => EndStep(s, step);
    case DrainReceive => EndStep(s, step);
    case DrainSet => EndStep(s, step);
    case DrainNone => EndStep(s, step);
    case Receive => DequeueStep(s, step);
    case ReceiveNone => DequeueStep(s, step);
    case Check => DequeueStep(s, step);
    case _ => ExecuteStep(s, step);
  }

  // ---------- Whole runs ----------

  ghost predicate CanRun(s: State, steps: seq<Step>)
    decreases steps
  {
    steps == [] || (Enabled(s, steps[0]) && CanRun(Next(s, steps[0]), steps[1..]))
  }

  ghost function Run(s: State, steps: seq<Step>): State
    requires CanRun(s, steps)
    decreases steps
  {
    if steps == [] then s else Run(Next(s, steps[0]), steps[1..])
  }

  lemma {:induction false} RunKeepsInv(s: State, steps: seq<Step>)
    requires Inv(s) && CanRun(s, steps)
    ensures Inv(Run(s, steps))
    decreases steps
  {
    hide Inv, Next;
    if steps != [] {
      StepKeepsInv(s, steps[0]);
      RunKeepsInv(Next(s, steps[0]), steps[1..]);
    }
  }

  /** Queued, then running, then finished; or finished without running. */
  predicate Onward(a: OpState, b: OpState) {
    a == b || a.Queued? || (a.Running? && IsTerminal(b))
  }

  /** What time does to the registry: states move onward, and whatever is new, even under
      an id that was there before, has a new sequence number. */
  ghost predicate Later(a: Reg, b: Reg) {
    && a.next <= b.next
    && (forall id | SameOp(a, b, id) :: Onward(a.ops[id].state, b.ops[id].state))
    && (forall id | id in b.ops :: SameOp(a, b, id) || a.next <= b.ops[id].sequence)
  }

  /** What one step does to it: only finished operations are dropped. */
  ghost predicate Moves(a: Reg, b: Reg) {
    Later(a, b) && forall id | id in a.ops && !SameOp(a, b, id) :: IsTerminal(a.ops[id].state)
  }

  ghost predicate SameOp(a: Reg, b: Reg, id: Id) {
    id in a.ops && id in b.ops && a.ops[id].sequence == b.ops[id].sequence && a.ops[id].digest == b.ops[id].digest
  }

  lemma AdmitMoves(s: State, work: Work, accepted: bool)
    requires Inv(s)
    ensures Moves(s.reg, Admitted(s, work, accepted).reg)
  {
    hide RegOk, LiveOk, OrderOk, Evicted, SizeOk, LatchOk, PhaseOk;
    EvictedOk(s.reg, s.capacity);
  }

  lemma SetMoves(s: State, id: Id, state: OpState, phase: Phase)
    requires id in s.reg.ops && Onward(s.reg.ops[id].state, state)
    ensures Moves(s.reg, Set(s, id, state, phase).reg)
  {
  }

  lemma HandState(s: State)
    requires Inv(s) && Hand(s.phase).Some?
    ensures Hand(s.phase).value.id in s.reg.ops
    ensures s.reg.ops[Hand(s.phase).value.id].state == if s.phase.Executing? then Running else Queued
  {
    assert Hand(s.phase).value.id in InHand(Hand(s.phase));
  }

  lemma StepMoves(s: State, step: Step)
    requires Inv(s) && Enabled(s, step)
    ensures Moves(s.reg, Next(s, step).reg)
  {
    hide Inv, Moves, Set, Admitted, SetState, AdmitSpec;
    Stays(s.reg);
    if Hand(s.phase).Some? {
      HandState(s);
    }
    match step
    case SubmitAdmit(i) => AdmitMoves(s, s.pending[i], HasRoom(s));
    case ShutdownAdmit(work) => AdmitMoves(s, work, true);
    case Refuse => SetMoves(s, s.phase.work.id, Failed, Waiting);
    case Start => SetMoves(s, s.phase.work.id, Running, Executing(s.phase.work));
    case Finish(ok) =>
      SetMoves(s, s.phase.work.id, if ok then Succeeded else Failed,
               if s.phase.work.shutdown then Ending(Clean) else Waiting);
    case Panic => SetMoves(s, s.phase.work.id, Failed, Panicked);
    case DrainSet => SetMoves(s, s.phase.work.id, Leftover(s.phase.exit, s.phase.work), Draining(s.phase.exit));
    case _ =>
  }

  lemma Stays(r: Reg)
    ensures Moves(r, r)
  {
  }

  lemma LaterComposes(a: Reg, b: Reg, c: Reg)
    requires RegOk(a) && RegOk(b) && Later(a, b) && Later(b, c)
    ensures Later(a, c)
  {
    hide RegOk;
    forall id | id in a.ops ensures a.ops[id].sequence < a.next {
      Numbered(a, id);
    }
  }

  lemma Numbered(r: Reg, id: Id)
    requires RegOk(r) && id in r.ops
    ensures r.ops[id].sequence < r.next
  {
    var i := Position(r, id);
  }

  lemma {:induction false} RunMoves(s: State, steps: seq<Step>)
    requires Inv(s) && CanRun(s, steps)
    ensures Later(s.reg, Run(s, steps).reg)
    decreases steps
  {
    hide Inv, Next, Later;
    if steps == [] {
      Stays(s.reg);
    } else {
      var t := Next(s, steps[0]);
      StepKeepsInv(s, steps[0]);
      StepMoves(s, steps[0]);
      RunMoves(t, steps[1..]);
      RunKeepsInv(t, steps[1..]);
      InvReg(s);
      InvReg(t);
      LaterComposes(s.reg, t.reg, Run(s, steps).reg);
    }
  }

  lemma InvReg(s: State)
    requires Inv(s)
    ensures RegOk(s.reg)
  {
  }

  /** Once the executor has returned, everything registered is finished, and stays so:
      nothing is admitted any more. */
  lemma ExitIsFinal(s: State, step: Step)
    requires Inv(s) && s.phase.Exited? && Enabled(s, step)
    ensures forall id | id in s.reg.ops :: IsTerminal(s.reg.ops[id].state)
    ensures Next(s, step).phase == s.phase && Next(s, step).reg.ops.Keys <= s.reg.ops.Keys
  {
    hide RegOk, LiveOk, OrderOk, SizeOk, LatchOk, HistoryOk, Evicted;
    AllFinished(s);
    EvictedOk(s.reg, s.capacity);
  }

  lemma {:induction false} NothingAfterExit(s: State, steps: seq<Step>)
    requires Inv(s) && s.phase.Exited? && CanRun(s, steps)
    ensures Run(s, steps).phase == s.phase && Run(s, steps).reg.ops.Keys <= s.reg.ops.Keys
    ensures forall id | id in Run(s, steps).reg.ops :: IsTerminal(Run(s, steps).reg.ops[id].state)
    decreases steps
  {
    hide Inv, Next;
    if steps == [] {
      AllFinished(s);
    } else {
      ExitIsFinal(s, steps[0]);
      StepKeepsInv(s, steps[0]);
      NothingAfterExit(Next(s, steps[0]), steps[1..]);
    }
  }

  lemma AllFinished(s: State)
    requires Inv(s) && s.phase.Exited?
    ensures forall id | id in s.reg.ops :: IsTerminal(s.reg.ops[id].state)
  {
    assert Ids(s.queue) + InHand(Hand(s.phase)) == {};
  }

  /** In every run from the start: work is dequeued in sequence order; each operation is
      started or refused at most once, in that order; what runs or has succeeded was started,
      unless it is a shutdown that a clean end settled; after a refusal only a shutdown
      starts; the registry stays within its bound; the unfinished operations are
      exactly the queue and the one in hand; an exit leaves nothing unfinished; and a clean
      one means that a shutdown ran or that every handle was gone. */
  lemma EveryRun(registryCapacity: nat, queueCapacity: nat, steps: seq<Step>)
    requires CanRun(Initial(registryCapacity, queueCapacity), steps)
    ensures var t := Run(Initial(registryCapacity, queueCapacity), steps);
      && (forall i, j | 0 <= i < j < |t.dequeued| :: t.dequeued[i] < t.dequeued[j])
      && LatchHolds(t.events)
      && (forall i, j | 0 <= i < j < |t.events| :: t.events[i].sequence < t.events[j].sequence)
      && StartedOk(t.reg.ops, t.events, EndsClean(t.phase))
      && |t.reg.ops| <= t.capacity
      && DistinctIds(t.queue) && InHand(Hand(t.phase)) !! Ids(t.queue)
      && (set id | id in t.reg.ops && !IsTerminal(t.reg.ops[id].state)) == Ids(t.queue) + InHand(Hand(t.phase))
      && (t.phase.Exited? ==> forall id | id in t.reg.ops :: IsTerminal(t.reg.ops[id].state))
      && (t.phase == Exited(Clean) ==> AnyShutdown(t.events) || !t.handles)
  {
    hide Next, Inv, StartedOk, LatchHolds, AnyShutdown, DistinctIds, Ids;
    var s := Initial(registryCapacity, queueCapacity);
    var t := Run(s, steps);
    InitialOk(registryCapacity, queueCapacity);
    RunKeepsInv(s, steps);
    HistoryInOrder(t);
    LiveExact(t);
    Bounded(t);
    if t.phase.Exited? {
      AllFinished(t);
    }
  }

  lemma HistoryInOrder(t: State)
    requires Inv(t)
    ensures forall i, j | 0 <= i < j < |t.dequeued| :: t.dequeued[i] < t.dequeued[j]
    ensures forall i, j | 0 <= i < j < |t.events| :: t.events[i].sequence < t.events[j].sequence
  {
    hide RegOk, LiveOk, SizeOk, LatchOk, PhaseOk, StartedOk;
    var line, decided := t.dequeued + Sequences(t.reg, t.queue), Decided(t.events);
    forall i, j | 0 <= i < j < |t.dequeued| ensures t.dequeued[i] < t.dequeued[j] {
      assert line[i] == t.dequeued[i] && line[j] == t.dequeued[j];
    }
    forall i, j | 0 <= i < j < |t.events| ensures t.events[i].sequence < t.events[j].sequence {
      assert decided[i] < decided[j];
    }
  }

  lemma LiveExact(t: State)
    requires Inv(t)
    ensures DistinctIds(t.queue) && InHand(Hand(t.phase)) !! Ids(t.queue)
    ensures (set id | id in t.reg.ops && !IsTerminal(t.reg.ops[id].state)) == Ids(t.queue) + InHand(Hand(t.phase))
  {
    hide RegOk, OrderOk, SizeOk, LatchOk, PhaseOk, HistoryOk, DistinctIds, Ids;
  }

  lemma Bounded(t: State)
    requires Inv(t)
    ensures |t.reg.ops| <= t.capacity && LatchHolds(t.events) && StartedOk(t.reg.ops, t.events, EndsClean(t.phase))
    ensures EndsClean(t.phase) ==> AnyShutdown(t.events) || !t.handles
  {
    hide RegOk, LiveOk, OrderOk, LatchHolds, OnceOk, StartedOk, AnyShutdown, AnyRefused;
  }

  /** Resubmitting a registered id changes neither the registry nor the queue. */
  lemma ResubmitEnqueuesNothing(s: State, work: Work, accepted: bool)
    requires work.id in s.reg.ops
    ensures Admitted(s, work, accepted) == s
  {
  }

  /** At some point of the run the operation registered under `id` is finished. */
  ghost predicate Finishes(s: State, steps: seq<Step>, id: Id)
    requires CanRun(s, steps)
    decreases steps
  {
    || (id in s.reg.ops && IsTerminal(s.reg.ops[id].state))
    || (steps != [] && Finishes(Next(s, steps[0]), steps[1..], id))
  }

  /** As long as an operation has not finished, every resubmission under its id finds it:
      the same digest gets its sequence number, another one a conflict, and neither
      registers, evicts or enqueues anything. */
  lemma {:induction false} FoundUntilFinished(s: State, steps: seq<Step>, id: Id, work: Work, accepted: bool)
    requires Inv(s) && id in s.reg.ops && CanRun(s, steps) && !Finishes(s, steps, id) && work.id == id
    ensures var t, op := Run(s, steps), s.reg.ops[id];
      && Admitted(t, work, accepted) == t
      && AdmitSpec(t.reg, t.capacity, id, work.digest, accepted).1 ==
           if work.digest == op.digest then Existing(op.sequence) else Conflict
    decreases steps
  {
    hide Inv, Next, Moves;
    if steps == [] {
      ResubmitLeavesRegistry(s.reg, s.capacity, id, work.digest, accepted);
      ResubmitEnqueuesNothing(s, work, accepted);
    } else {
      StepKeepsInv(s, steps[0]);
      StepMoves(s, steps[0]);
      SameUntilFinished(s.reg, Next(s, steps[0]).reg, id);
      FoundUntilFinished(Next(s, steps[0]), steps[1..], id, work, accepted);
    }
  }

  lemma SameUntilFinished(a: Reg, b: Reg, id: Id)
    requires Moves(a, b) && id in a.ops && !IsTerminal(a.ops[id].state)
    ensures SameOp(a, b, id)
  {
  }
}
