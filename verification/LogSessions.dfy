/**
 The actor that owns viewer sessions and their shared file slots: leases expire, idle
 slots survive a grace period, and each slot runs at most one refresh at a time. Times
 are readings of one monotonic clock; every reading inside a message is a parameter.
 */
module LogSessions {
  import opened Prelude

  const LEASE: nat := 45_000
  const GRACE: nat := 30_000
  const MAX_SESSIONS: nat := 16
  const MAX_SLOTS: nat := 4

  type Id = string

  datatype Session = Session(owner: string, request: string, file: string, expires: nat)

  /** `work` is away exactly while a refresh runs; `idle` is when the last session left. */
  datatype Slot = Slot(work: Option<Work>, running: bool, idle: Option<nat>)

  datatype Work = Work(generation: nat)

  datatype State = State(sessions: map<Id, Session>, slots: map<string, Slot>)

  // ---------- Reaping ----------

  predicate InUse(sessions: map<Id, Session>, file: string) {
    exists id :: id in sessions && sessions[id].file == file
  }

  function Live(sessions: map<Id, Session>, now: nat): map<Id, Session> {
    map id | id in sessions && now < sessions[id].expires :: sessions[id]
  }

  /** When the sessions on `file` that are over by `now` ran out. */
  ghost function Expiries(sessions: map<Id, Session>, file: string, now: nat): set<nat> {
    set id | id in sessions && sessions[id].file == file && sessions[id].expires <= now :: sessions[id].expires
  }

  /** A slot's idle mark after reaping at `now`. */
  ghost function IdleAt(s: State, file: string, now: nat): Option<nat>
    requires file in s.slots
  {
    if InUse(Live(s.sessions, now), file) then None
    else if s.slots[file].idle.Some? then s.slots[file].idle
    else
      var over := Expiries(s.sessions, file, now);
      Some(if over == {} then now else MaxOf(over))
  }

  predicate Keeps(slot: Slot, now: nat) {
    slot.running || slot.idle.None? || now < slot.idle.value + GRACE
  }

  ghost function Reaped(s: State, now: nat): State {
    State(Live(s.sessions, now),
          map file | file in s.slots && Keeps(s.slots[file].(idle := IdleAt(s, file, now)), now)
            :: s.slots[file].(idle := IdleAt(s, file, now)))
  }

  /** What holds between messages. */
  ghost predicate Inv(s: State) {
    Shape(s) && IdleMarksOk(s)
  }

  /** The part of the invariant that holds inside a message too. */
  ghost predicate Shape(s: State) {
    && |s.sessions| <= MAX_SESSIONS && |s.slots| <= MAX_SLOTS
    && (forall id | id in s.sessions :: s.sessions[id].file in s.slots)
    && SingleFlight(s) && OnePerRequest(s)
  }

  /** A slot is marked idle exactly when no session uses it. */
  ghost predicate IdleMarksOk(s: State) {
    forall file | file in s.slots :: s.slots[file].idle.None? <==> InUse(s.sessions, file)
  }

  ghost predicate SingleFlight(s: State) {
    forall file | file in s.slots :: s.slots[file].work.None? <==> s.slots[file].running
  }

  ghost predicate OnePerRequest(s: State) {
    forall a, b | a in s.sessions && b in s.sessions
      && s.sessions[a].owner == s.sessions[b].owner && s.sessions[a].request == s.sessions[b].request :: a == b
  }

  lemma {:induction false} SubmapIsSmaller<K, V>(small: map<K, V>, big: map<K, V>)
    requires small.Keys <= big.Keys
    ensures |small| <= |big|
  {
    SubsetIsSmaller(small.Keys, big.Keys);
  }

  /** Reaping keeps the invariant; it even restores the idle marks after a session left. */
  lemma ReapKeepsInv(s: State, now: nat)
    requires Shape(s)
    ensures Inv(Reaped(s, now))
  {
    hide InUse;
    var t := Reaped(s, now);
    SubmapIsSmaller(t.sessions, s.sessions);
    SubmapIsSmaller(t.slots, s.slots);
    forall id | id in t.sessions ensures t.sessions[id].file in t.slots {
      UsedBy(t.sessions, id);
    }
  }

  lemma ReapedSessions(s: State, now: nat)
    ensures forall id | id in Reaped(s, now).sessions ::
      id in s.sessions && Reaped(s, now).sessions[id] == s.sessions[id]
  {
  }

  lemma UsedBy(sessions: map<Id, Session>, id: Id)
    requires id in sessions
    ensures InUse(sessions, sessions[id].file)
  {
  }

  lemma MaxOfLater(early: set<nat>, late: set<nat>, t: nat)
    requires late != {} && (forall x | x in early :: x <= t) && (forall x | x in late :: t < x)
    ensures MaxOf(early + late) == MaxOf(late)
  {
    var m := MaxOf(early + late);
    var l :| l in late;
    assert l in early + late;
    assert m in late;
    assert MaxOf(late) in early + late;
  }

  /** Reaping in between changes nothing: only the last reading of the clock matters. */
  lemma ReapComposes(s: State, t1: nat, t2: nat)
    requires Inv(s) && t1 <= t2
    ensures Reaped(Reaped(s, t1), t2) == Reaped(s, t2)
  {
    hide Inv, IdleAt, Live;
    var mid, once, twice := Reaped(s, t1), Reaped(s, t2), Reaped(Reaped(s, t1), t2);
    LiveTwice(s.sessions, t1, t2);
    forall file | file in s.slots
      ensures file in twice.slots <==> file in once.slots
      ensures file in twice.slots ==> twice.slots[file] == once.slots[file]
    {
      ReapSlotComposes(s, file, t1, t2);
    }
    assert twice.slots == once.slots;
  }

  lemma LiveTwice(sessions: map<Id, Session>, t1: nat, t2: nat)
    requires t1 <= t2
    ensures Live(Live(sessions, t1), t2) == Live(sessions, t2)
  {
  }

  lemma ExpiriesSplit(sessions: map<Id, Session>, file: string, t1: nat, t2: nat)
    requires t1 <= t2
    ensures Expiries(sessions, file, t2) == Expiries(sessions, file, t1) + Expiries(Live(sessions, t1), file, t2)
    ensures forall x | x in Expiries(sessions, file, t1) :: x <= t1
    ensures forall x | x in Expiries(Live(sessions, t1), file, t2) :: t1 < x
  {
    var live := Live(sessions, t1);
    forall x | x in Expiries(sessions, file, t2)
      ensures x in Expiries(sessions, file, t1) + Expiries(live, file, t2)
    {
      var id :| id in sessions && sessions[id].file == file && sessions[id].expires == x;
      assert t1 < x ==> id in live;
    }
  }

  lemma ReapSlotComposes(s: State, file: string, t1: nat, t2: nat)
    requires Inv(s) && t1 <= t2 && file in s.slots
    ensures var mid := Reaped(s, t1);
      if file in mid.slots then IdleAt(mid, file, t2) == IdleAt(s, file, t2)
      else !Keeps(s.slots[file].(idle := IdleAt(s, file, t2)), t2)
  {
    hide Inv, InUse;
    IdleMatchesUse(s, file);
    var live1, live2 := Live(s.sessions, t1), Live(s.sessions, t2);
    assert Live(live1, t2) == live2;
    ExpiriesSplit(s.sessions, file, t1, t2);
    var over1, over12 := Expiries(s.sessions, file, t1), Expiries(live1, file, t2);
    NotInUse(s.sessions, file, t1);
    NotInUse(live1, file, t2);
    UseShrinks(s.sessions, file, t1);
    UseShrinks(live1, file, t2);
    if InUse(live1, file) && !InUse(live2, file) {
      MaxOfLater(over1, over12, t1);
    } else if !InUse(live1, file) {
      assert over1 + over12 == over1;
    }
  }

  /** Sessions that are all over have all left an expiry; with none there is no expiry. */
  lemma NotInUse(sessions: map<Id, Session>, file: string, now: nat)
    ensures InUse(sessions, file) && !InUse(Live(sessions, now), file) ==> Expiries(sessions, file, now) != {}
    ensures !InUse(sessions, file) ==> Expiries(sessions, file, now) == {}
  {
    var live := Live(sessions, now);
    if InUse(sessions, file) && !InUse(live, file) {
      var id :| id in sessions && sessions[id].file == file;
      if id in live {
        UsedBy(live, id);
      }
      assert sessions[id].expires in Expiries(sessions, file, now);
    }
  }

  lemma UseShrinks(sessions: map<Id, Session>, file: string, now: nat)
    ensures InUse(Live(sessions, now), file) ==> InUse(sessions, file)
  {
  }

  lemma SessionHasSlot(s: State, id: Id)
    requires Shape(s) && id in s.sessions
    ensures s.sessions[id].file in s.slots
  {
  }

  lemma IdleMatchesUse(s: State, file: string)
    requires Inv(s) && file in s.slots
    ensures s.slots[file].idle.None? <==> InUse(s.sessions, file)
  {
  }

  // ---------- The actor ----------

  /** `expired` holds the latest expiry per file among the sessions in `seen`. */
  ghost predicate Latest(expired: map<string, nat>, sessions: map<Id, Session>, seen: set<Id>, now: nat)
    requires seen <= sessions.Keys
  {
    && (forall file | file in expired ::
          exists id | id in seen :: sessions[id].file == file && sessions[id].expires == expired[file] <= now)
    && (forall id | id in seen && sessions[id].expires <= now ::
          sessions[id].file in expired && sessions[id].expires <= expired[sessions[id].file])
  }

  function LaterOf(expired: map<string, nat>, file: string, at: nat): nat {
    if file in expired && at < expired[file] then expired[file] else at
  }

  lemma LatestStep(expired: map<string, nat>, sessions: map<Id, Session>, seen: set<Id>, now: nat, id: Id)
    requires seen <= sessions.Keys && id in sessions && Latest(expired, sessions, seen, now)
    ensures var e := sessions[id];
      Latest(if e.expires <= now then expired[e.file := LaterOf(expired, e.file, e.expires)] else expired,
             sessions, seen + {id}, now)
  {
    var e := sessions[id];
    var next := if e.expires <= now then expired[e.file := LaterOf(expired, e.file, e.expires)] else expired;
    forall file | file in next
      ensures exists k | k in seen + {id} :: sessions[k].file == file && sessions[k].expires == next[file] <= now
    {
      if file in expired && next[file] == expired[file] {
        var k :| k in seen && sessions[k].file == file && sessions[k].expires == expired[file] <= now;
        assert k in seen + {id};
      } else {
        assert id in seen + {id};
      }
    }
  }

  lemma MarkedAsReaped(s: State, now: nat, expired: map<string, nat>, marked: map<string, Slot>)
    requires Latest(expired, s.sessions, s.sessions.Keys, now)
    requires marked.Keys == s.slots.Keys
    requires forall file | file in s.slots :: marked[file] == s.slots[file].(
        idle := if InUse(Live(s.sessions, now), file) then None
                else if s.slots[file].idle.Some? then s.slots[file].idle
                else Some(if file in expired then expired[file] else now))
    ensures State(Live(s.sessions, now), map file | file in marked && Keeps(marked[file], now) :: marked[file])
         == Reaped(s, now)
  {
    hide InUse, Live, Expiries, Latest, Keeps;
    LatestIsMax(expired, s.sessions, now);
    assert forall file | file in s.slots :: marked[file].idle == IdleAt(s, file, now);
  }

  lemma LatestIsMax(expired: map<string, nat>, sessions: map<Id, Session>, now: nat)
    requires Latest(expired, sessions, sessions.Keys, now)
    ensures forall file: string ::
      var over := Expiries(sessions, file, now);
      if file in expired then over != {} && MaxOf(over) == expired[file] else over == {}
  {
    forall file: string
      ensures var over := Expiries(sessions, file, now);
        if file in expired then over != {} && MaxOf(over) == expired[file] else over == {}
    {
      var over := Expiries(sessions, file, now);
      if file in expired {
        assert expired[file] in over;
      }
    }
  }

  lemma SameFilesSameUse(a: map<Id, Session>, b: map<Id, Session>, file: string)
    requires a.Keys == b.Keys && forall id | id in a :: a[id].file == b[id].file
    ensures InUse(a, file) <==> InUse(b, file)
  {
    if id :| id in a && a[id].file == file {
      assert b[id].file == file;
    }
  }

  lemma RenewKeepsInv(s: State, id: Id, expires: nat)
    requires Inv(s) && id in s.sessions
    ensures Inv(s.(sessions := s.sessions[id := s.sessions[id].(expires := expires)]))
  {
    hide Shape, InUse;
    var renewed := s.sessions[id := s.sessions[id].(expires := expires)];
    RenewKeepsShape(s, id, expires);
    forall file | file in s.slots ensures s.slots[file].idle.None? <==> InUse(renewed, file) {
      SameFilesSameUse(renewed, s.sessions, file);
    }
  }

  lemma RenewKeepsShape(s: State, id: Id, expires: nat)
    requires Shape(s) && id in s.sessions
    ensures Shape(s.(sessions := s.sessions[id := s.sessions[id].(expires := expires)]))
  {
    var renewed := s.sessions[id := s.sessions[id].(expires := expires)];
    assert renewed.Keys == s.sessions.Keys;
    assert |renewed| == |renewed.Keys|;
    assert forall k | k in s.sessions :: renewed[k].(expires := 0) == s.sessions[k].(expires := 0);
  }

  lemma OpenKeepsInv(s: State, id: Id, session: Session, slot: Slot)
    requires Inv(s) && id !in s.sessions && |s.sessions| < MAX_SESSIONS
    requires session.file !in s.slots ==> |s.slots| < MAX_SLOTS
    requires slot.idle == None && (slot.work.None? <==> slot.running)
    requires !Known(s.sessions, session.owner, session.request)
    ensures Inv(State(s.sessions[id := session], s.slots[session.file := slot]))
  {
    hide InUse;
    var t := State(s.sessions[id := session], s.slots[session.file := slot]);
    UsedBy(t.sessions, id);
    forall file | file in t.slots ensures t.slots[file].idle.None? <==> InUse(t.sessions, file) {
      if file != session.file {
        OtherFileUse(s.sessions, id, session, file);
      }
    }
  }

  lemma OtherFileUse(sessions: map<Id, Session>, id: Id, session: Session, file: string)
    requires id !in sessions && file != session.file
    ensures InUse(sessions[id := session], file) <==> InUse(sessions, file)
  {
    if k :| k in sessions && sessions[k].file == file {
      assert sessions[id := session][k].file == file;
    }
  }

  /** Whether a slot can be handed its work, or give it away, does not depend on sessions. */
  lemma OpenSlotOk(s: State, file: string)
    requires Inv(s) && file in s.slots
    ensures s.slots[file].work.None? <==> s.slots[file].running
  {
  }

  lemma LaunchKeepsInv(s: State, file: string)
    requires Inv(s) && file in s.slots
    ensures Inv(s.(slots := s.slots[file := Launched(s.slots[file])]))
  {
    hide InUse, OnePerRequest;
    SlotUpdate(s, file, Launched(s.slots[file]));
  }

  /** A slot may change in everything but its idle mark. */
  lemma SlotUpdate(s: State, file: string, slot: Slot)
    requires Inv(s) && file in s.slots && slot.idle == s.slots[file].idle && (slot.work.None? <==> slot.running)
    ensures Inv(s.(slots := s.slots[file := slot]))
  {
    hide InUse;
    var t := s.(slots := s.slots[file := slot]);
    SlotsKept(s.slots, file, slot);
    assert OnePerRequest(t) by {
      OneStays(s, t);
    }
  }

  lemma SlotsKept(slots: map<string, Slot>, file: string, slot: Slot)
    requires file in slots
    ensures slots[file := slot].Keys == slots.Keys && |slots[file := slot]| == |slots|
  {
    var t := slots[file := slot];
    assert t.Keys == slots.Keys;
    assert |t.Keys| == |t| && |slots.Keys| == |slots|;
  }

  lemma OneStays(s: State, t: State)
    requires OnePerRequest(s) && t.sessions == s.sessions
    ensures OnePerRequest(t)
  {
  }

  lemma LandKeepsInv(s: State, file: string, work: Work)
    requires Inv(s) && file in s.slots
    ensures Inv(Landed(s, file, work))
  {
  }

  /** Everything but the idle marks survives the end of a session. */
  lemma CloseKeepsShape(s: State, id: Id)
    requires Shape(s)
    ensures Shape(s.(sessions := s.sessions - {id}))
  {
    SubmapIsSmaller(s.sessions - {id}, s.sessions);
  }

  function Launched(slot: Slot): Slot {
    slot.(work := None, running := true)
  }

  function Landed(s: State, file: string, work: Work): State
    requires file in s.slots
  {
    s.(slots := s.slots[file := s.slots[file].(work := Some(work), running := false)])
  }

  // ---------- The timer ----------

  /** When a lease runs out or an idle slot has waited long enough. */
  function Deadlines(s: State): set<nat> {
    (set id | id in s.sessions :: s.sessions[id].expires)
    + (set file | file in s.slots && !s.slots[file].running && s.slots[file].idle.Some?
         :: s.slots[file].idle.value + GRACE)
  }

  /** Reaping does nothing before the first deadline and something from then on. */
  lemma ReapIdlesUntilDeadline(s: State, now: nat)
    requires Inv(s)
    ensures Reaped(s, now) == s <==> forall d | d in Deadlines(s) :: now < d
  {
    hide Shape, InUse;
    if forall d | d in Deadlines(s) :: now < d {
      NothingExpires(s, now);
    } else {
      var d :| d in Deadlines(s) && d <= now;
      SomethingExpires(s, now, d);
    }
  }

  lemma NothingExpires(s: State, now: nat)
    requires IdleMarksOk(s) && forall d | d in Deadlines(s) :: now < d
    ensures Reaped(s, now) == s
  {
    hide InUse;
    forall id | id in s.sessions ensures now < s.sessions[id].expires {
      assert s.sessions[id].expires in Deadlines(s);
    }
    assert Live(s.sessions, now) == s.sessions;
    forall file | file in s.slots
      ensures IdleAt(s, file, now) == s.slots[file].idle && Keeps(s.slots[file], now)
    {
      if !s.slots[file].running && s.slots[file].idle.Some? {
        assert s.slots[file].idle.value + GRACE in Deadlines(s);
      }
    }
  }

  lemma SomethingExpires(s: State, now: nat, d: nat)
    requires IdleMarksOk(s) && d in Deadlines(s) && d <= now
    ensures Reaped(s, now) != s
  {
    hide InUse;
    if id :| id in s.sessions && s.sessions[id].expires == d {
      assert id !in Reaped(s, now).sessions;
    } else {
      var file :| file in s.slots && !s.slots[file].running && s.slots[file].idle.Some?
          && s.slots[file].idle.value + GRACE == d;
      UseShrinks(s.sessions, file, now);
      assert file !in Reaped(s, now).slots;
    }
  }

  datatype OpenReply = Opened(id: Id) | Refused | Limited

  /** The caller has a session under this request. */
  ghost predicate Known(sessions: map<Id, Session>, owner: string, request: string) {
    exists id :: id in sessions && sessions[id].owner == owner && sessions[id].request == request
  }

  /** That session is for another file. */
  ghost predicate Conflicts(sessions: map<Id, Session>, owner: string, request: string, file: string) {
    exists id :: id in sessions && sessions[id].owner == owner && sessions[id].request == request
      && sessions[id].file != file
  }

  predicate Full(s: State, file: string) {
    |s.sessions| >= MAX_SESSIONS || (file !in s.slots && |s.slots| >= MAX_SLOTS)
  }

  /** As there is at most one such session, the one that is found decides. */
  lemma KnownIs(s: State, owner: string, request: string, file: string)
    requires Shape(s)
    ensures forall id | id in s.sessions && s.sessions[id].owner == owner && s.sessions[id].request == request ::
      Known(s.sessions, owner, request)
      && (Conflicts(s.sessions, owner, request, file) <==> s.sessions[id].file != file)
  {
  }

  lemma NotKnown(sessions: map<Id, Session>, owner: string, request: string, file: string)
    requires !exists id :: id in sessions && sessions[id].owner == owner && sessions[id].request == request
    ensures !Known(sessions, owner, request) && !Conflicts(sessions, owner, request, file)
  {
  }

  // ---------- Refreshes in flight ----------

  /** One refresh is under way for every slot that is running one, and none for any other file. */
  ghost predicate Tracked(slots: map<string, Slot>, flights: multiset<string>) {
    forall file :: flights[file] == if file in slots && slots[file].running then 1 else 0
  }

  lemma TrackedUpdate(slots: map<string, Slot>, flights: multiset<string>, file: string, slot: Slot)
    requires Tracked(slots, flights) && slot.running == (file in slots && slots[file].running)
    ensures Tracked(slots[file := slot], flights)
  {
  }

  lemma TrackedLaunch(slots: map<string, Slot>, flights: multiset<string>, file: string)
    requires Tracked(slots, flights) && file in slots && !slots[file].running
    ensures Tracked(slots[file := Launched(slots[file])], flights + multiset{file})
  {
  }

  /** A refresh that comes back leaves none under way for its file. */
  lemma TrackedLand(slots: map<string, Slot>, flights: multiset<string>, file: string, slot: Slot)
    requires Tracked(slots, flights) && file in slots && !slot.running
    ensures Tracked(slots[file := slot], flights - multiset{file})
  {
  }

  /** Reaping leaves every slot that is running a refresh. */
  lemma TrackedReap(s: State, now: nat, flights: multiset<string>)
    requires Tracked(s.slots, flights)
    ensures Tracked(Reaped(s, now).slots, flights)
  {
    hide IdleAt, Live;
  }

  /** Per file at most one refresh is under way, and in all at most one per slot. */
  lemma FewFlights(s: State, flights: multiset<string>)
    requires Inv(s) && Tracked(s.slots, flights)
    ensures forall file :: flights[file] <= 1 && (flights[file] == 1 ==> file in s.slots && s.slots[file].work.None?)
    ensures |flights| <= MAX_SLOTS
  {
    hide IdleMarksOk, OnePerRequest;
    var running := set file | file in s.slots && s.slots[file].running;
    assert flights == multiset(running);
    SubsetIsSmaller(running, s.slots.Keys);
    assert |s.slots.Keys| == |s.slots|;
  }

  class LogsActor {
    var sessions: map<Id, Session>
    var slots: map<string, Slot>
    /** The refreshes under way, by file. */
    ghost var flights: multiset<string>

    ghost predicate Valid()
      reads this
    {
      Inv(Now()) && Tracked(slots, flights)
    }

    ghost function Now(): State
      reads this
    {
      State(sessions, slots)
    }

    constructor ()
      ensures sessions == map[] && slots == map[] && flights == multiset{} && Valid()
    {
      sessions, slots, flights := map[], map[], multiset{};
    }

    /** Drops expired sessions and slots that have been idle for the whole grace period. */
    method Reap(now: nat)
      requires Tracked(slots, flights)
      modifies `sessions, `slots
      ensures Now() == Reaped(old(Now()), now) && Tracked(slots, flights)
    {
      TrackedReap(Now(), now, flights);
      var expired := LatestExpiries(now);
      var live := Live(sessions, now);
      var marked := map file | file in slots ::
        slots[file].(idle := if InUse(live, file) then None
                             else if slots[file].idle.Some? then slots[file].idle
                             else Some(if file in expired then expired[file] else now));
      MarkedAsReaped(Now(), now, expired, marked);
      sessions := live;
      slots := map file | file in marked && Keeps(marked[file], now) :: marked[file];
    }

    /** Per file, when the last of its expired sessions ran out. */
    method LatestExpiries(now: nat) returns (expired: map<string, nat>)
      ensures Latest(expired, sessions, sessions.Keys, now)
    {
      expired := map[];
      var todo := sessions.Keys;
      ghost var seen: set<Id> := {};
      while todo != {}
        invariant todo !! seen && todo + seen == sessions.Keys
        invariant Latest(expired, sessions, seen, now)
        decreases todo
      {
        var id :| id in todo;
        var session := sessions[id];
        LatestStep(expired, sessions, seen, now, id);
        if session.expires <= now {
          expired := expired[session.file := LaterOf(expired, session.file, session.expires)];
        }
        seen := seen + {id};
        todo := todo - {id};
      }
      assert seen == sessions.Keys;
    }

    /** Starts a refresh unless one is running. */
    method Launch(file: string) returns (started: bool)
      requires file in slots && Tracked(slots, flights) && (slots[file].work.None? <==> slots[file].running)
      modifies `slots, `flights
      ensures started == old(slots)[file].work.Some? && Tracked(slots, flights)
      ensures flights == if started then old(flights) + multiset{file} else old(flights)
      ensures slots == if started then old(slots)[file := Launched(old(slots)[file])] else old(slots)
    {
      started := slots[file].work.Some?;
      if started {
        TrackedLaunch(slots, flights, file);
        slots := slots[file := Launched(slots[file])];
        flights := flights + multiset{file};
      }
    }

    /** Joins the caller's earlier session under the same request, or opens a new one. */
    method Open(owner: string, request: string, file: string, newId: Id, reapAt: nat, now: nat)
        returns (reply: OpenReply)
      requires Valid() && newId !in sessions
      modifies this
      ensures Valid()
      ensures reply.Opened? ==> reply.id in sessions && sessions[reply.id] == Session(owner, request, file, now + LEASE)
      ensures var mid := Reaped(old(Now()), reapAt);
        && (reply.Refused? <==> Conflicts(mid.sessions, owner, request, file))
        && (reply.Limited? <==> !Known(mid.sessions, owner, request) && Full(mid, file))
        && (reply.Opened? ==> (reply.id in mid.sessions <==> Known(mid.sessions, owner, request)))
        && (reply.Opened? ==> reply.id in mid.sessions || reply.id == newId)
        && (reply.Opened? ==> sessions == mid.sessions[reply.id := Session(owner, request, file, now + LEASE)])
        && (reply.Opened? ==>
              slots == if reply.id in mid.sessions then mid.slots else mid.slots[file := Slot(None, true, None)])
        && (!reply.Opened? ==> Now() == mid)
    {
      hide Shape, IdleMarksOk, Reaped, InUse, IdleAt, Live, Tracked;
      ReapedSessions(Now(), reapAt);
      ReapKeepsInv(Now(), reapAt);
      Reap(reapAt);
      hide Conflicts, Known;
      KnownIs(Now(), owner, request, file);
      if id :| id in sessions && sessions[id].owner == owner && sessions[id].request == request {
        if sessions[id].file != file {
          return Refused;
        }
        RenewKeepsInv(Now(), id, now + LEASE);
        sessions := sessions[id := sessions[id].(expires := now + LEASE)];
        return Opened(id);
      }
      NotKnown(sessions, owner, request, file);
      if |sessions| >= MAX_SESSIONS || (file !in slots && |slots| >= MAX_SLOTS) {
        return Limited;
      }
      Enter(newId, Session(owner, request, file, now + LEASE));
      return Opened(newId);
    }

    /** Adds a session, with its slot not idle and refreshing. */
    method Enter(id: Id, session: Session)
      requires Valid() && id !in sessions && !Full(Now(), session.file)
      requires !Known(sessions, session.owner, session.request)
      modifies this
      ensures Valid() && sessions == old(sessions)[id := session]
      ensures slots == old(slots)[session.file := Slot(None, true, None)]
    {
      hide Inv, InUse, Tracked;
      var file := session.file;
      if file in slots {
        OpenSlotOk(Now(), file);
      }
      var slot := if file in slots then slots[file].(idle := None) else Slot(Some(Work(0)), false, None);
      OpenKeepsInv(Now(), id, session, slot);
      TrackedUpdate(slots, flights, file, slot);
      sessions := sessions[id := session];
      slots := slots[file := slot];
      if !slot.running {
        LaunchKeepsInv(Now(), file);
        var _ := Launch(file);
      }
    }

    /** Renews the lease of the caller's own session and refreshes its file. */
    method Query(owner: string, id: Id, reapAt: nat, now: nat) returns (served: bool)
      requires Valid()
      modifies this
      ensures Valid()
      ensures var mid := Reaped(old(Now()), reapAt);
        && served == (id in mid.sessions && mid.sessions[id].owner == owner)
        && sessions == (if served then mid.sessions[id := mid.sessions[id].(expires := now + LEASE)] else mid.sessions)
        && (served ==> mid.sessions[id].file in mid.slots)
        && slots == (if served then mid.slots[mid.sessions[id].file := Launched(mid.slots[mid.sessions[id].file])]
                     else mid.slots)
    {
      hide Shape, IdleMarksOk, Reaped, InUse, IdleAt, Live, Tracked;
      ReapKeepsInv(Now(), reapAt);
      Reap(reapAt);
      served := id in sessions && sessions[id].owner == owner;
      if served {
        RenewKeepsInv(Now(), id, now + LEASE);
        sessions := sessions[id := sessions[id].(expires := now + LEASE)];
        SessionHasSlot(Now(), id);
        OpenSlotOk(Now(), sessions[id].file);
        LaunchKeepsInv(Now(), sessions[id].file);
        var _ := Launch(sessions[id].file);
      }
    }

    /** Ends the caller's own session; someone else's stays. */
    method Close(owner: string, id: Id, reapAt: nat, again: nat) returns (closed: bool)
      requires Valid()
      modifies this
      ensures Valid() && (closed ==> id !in sessions)
      ensures var mid := Reaped(old(Now()), reapAt);
        && closed == !(id in mid.sessions && mid.sessions[id].owner != owner)
        && Now() == if closed then Reaped(mid.(sessions := mid.sessions - {id}), again) else mid
    {
      hide Shape, IdleMarksOk, Reaped, InUse, IdleAt, Live, Tracked;
      ReapKeepsInv(Now(), reapAt);
      Reap(reapAt);
      closed := !(id in sessions && sessions[id].owner != owner);
      if closed {
        CloseKeepsShape(Now(), id);
        sessions := sessions - {id};
        ReapedSessions(Now(), again);
        ReapKeepsInv(Now(), again);
        Reap(again);
      }
    }

    /** A refresh came back: with its work and a page, with its work and a page error, or
        without the work, which is then rebuilt. */
    method Done(file: string, work: Option<Work>, page: Option<bool>, reapAt: nat, again: nat)
      requires Valid()
      modifies this
      ensures Valid()
      ensures var mid := Reaped(old(Now()), reapAt);
        Now() == if file !in mid.slots then Reaped(mid, again)
                 else if work.Some? && page.None? then Landed(mid, file, work.value)
                 else if work.Some? && page.value && InUse(mid.sessions, file)
                 then Reaped(mid.(slots := mid.slots[file := Launched(mid.slots[file])]), again)
                 else Reaped(Landed(mid, file, if work.Some? then work.value else Work(0)), again)
    {
      hide Inv, Reaped, InUse, Tracked, Landed, Launched;
      InvShape(Now());
      ReapKeepsInv(Now(), reapAt);
      Reap(reapAt);
      ghost var mid := Now();
      if file in slots {
        var back := if work.Some? then work.value else Work(0);
        TakeBack(file, back);
        if work.Some? {
          if page.None? {
            return;
          }
          // `page.value` tells whether the file is still being indexed.
          if page.value && InUse(sessions, file) {
            Relaunch(file, mid, back);
          }
        }
      }
      InvShape(Now());
      ReapKeepsInv(Now(), again);
      Reap(again);
    }

    lemma InvShape(s: State)
      requires Inv(s)
      ensures Shape(s)
    {
    }

    /** The work is back in its slot. */
    method TakeBack(file: string, back: Work)
      requires Valid() && file in slots
      modifies `slots, `flights
      ensures Valid() && Now() == Landed(old(Now()), file, back)
      ensures flights == old(flights) - multiset{file}
    {
      hide Inv, Tracked;
      LandKeepsInv(Now(), file, back);
      TrackedLand(slots, flights, file, slots[file].(work := Some(back), running := false));
      slots := slots[file := slots[file].(work := Some(back), running := false)];
      flights := flights - multiset{file};
    }

    /** The work goes straight out again. */
    method Relaunch(file: string, ghost mid: State, ghost back: Work)
      requires Valid() && file in mid.slots && Now() == Landed(mid, file, back)
      modifies `slots, `flights
      ensures Valid() && Now() == mid.(slots := mid.slots[file := Launched(mid.slots[file])])
    {
      hide Inv, Tracked;
      OpenSlotOk(Now(), file);
      LaunchKeepsInv(Now(), file);
      var _ := Launch(file);
    }

    method Tick(reapAt: nat)
      requires Valid()
      modifies this
      ensures Valid() && Now() == Reaped(old(Now()), reapAt)
    {
      hide Shape, IdleMarksOk, Reaped, InUse, IdleAt, Live, Tracked;
      ReapKeepsInv(Now(), reapAt);
      Reap(reapAt);
    }

    /** Picks the next tick: the first deadline, if there is one. */
    method Schedule() returns (next: Option<nat>)
      ensures next.None? <==> Deadlines(State(sessions, slots)) == {}
      ensures next.Some? ==> next.value in Deadlines(State(sessions, slots))
      ensures next.Some? ==> forall d | d in Deadlines(State(sessions, slots)) :: next.value <= d
    {
      hide Deadlines;
      var todo := Deadlines(State(sessions, slots));
      next := None;
      while todo != {}
        invariant todo <= Deadlines(State(sessions, slots))
        invariant next.None? ==> todo == Deadlines(State(sessions, slots))
        invariant next.Some? ==> next.value in Deadlines(State(sessions, slots))
        invariant next.Some? ==> forall d | d in Deadlines(State(sessions, slots)) :: d in todo || next.value <= d
        decreases todo
      {
        var d :| d in todo;
        if next.None? || d < next.value {
          next := Some(d);
        }
        todo := todo - {d};
      }
    }
  }
}
