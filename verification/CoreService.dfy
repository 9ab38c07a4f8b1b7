/**
 Transactions that touch the host DNS override beside the core: stop and shutdown restore
 it before they stop anything, a reconcile brings it in line at its end, and a recovery
 restores it once nothing uncertain is left.
 */
module CoreService {
  import opened Prelude
  import opened CoreHost
  import opened CoreLedger
  import opened CoreManager
  import opened DnsSync

  datatype Published = Unset | Halted

  class Service {
    const manager: Manager
    const dns: DnsKeeper
    /** The servers that a document wants the host to use. */
    const wants: Document -> Option<seq<string>>
    /** What the last recovery announced. */
    var published: Published

    ghost predicate Valid()
      reads this, manager, manager.host, dns
    {
      manager.Inv() && dns.Inv()
    }

    constructor (manager: Manager, dns: DnsKeeper, wants: Document -> Option<seq<string>>)
      requires manager.Inv() && dns.Inv()
      ensures Valid() && this.manager == manager && this.dns == dns && this.wants == wants
    {
      this.manager, this.dns, this.wants, published := manager, dns, wants, Unset;
    }

    /** The steps of one restore, or none where nothing is on record. */
    ghost predicate Restored(memory: Option<Record>, before: seq<Act>)
      reads dns
    {
      if !dns.controller || memory.None? then dns.acts == before
      else exists marked, undone, cleared :: dns.acts == before + RestoreActs(memory.value, marked, undone, cleared)
    }

    /** The steps that put in place what the core in the slot wants. */
    ghost predicate Applied(memory: Option<Record>, before: seq<Act>, servers: seq<string>, epoch: nat)
      reads dns
    {
      if !dns.controller then dns.acts == before
      else exists recorded, answer, kept ::
             dns.acts == before + ApplyActs(memory, servers, epoch, recorded, answer, kept)
    }

    /** What the core in the slot wants, if it runs. */
    function Desired(terminal: bool): Option<(seq<string>, nat)>
      reads manager
    {
      if manager.ctrl.current.None? || terminal then None
      else
        var plan := manager.ctrl.current.value.plan;
        var servers := wants(plan.document);
        if servers.Some? then Some((servers.value, plan.epoch)) else None
    }

    /** What the last recovery announced is what is in the slot. */
    predicate Truthful()
      reads this, manager
    {
      published.Halted? ==> manager.ctrl.current.None?
    }

    /** Restores, then stops. A death on the way to the stop leaves the core as it was. */
    method Stop(terminal: bool) returns (r: Result<()>, alive: bool)
      requires Valid()
      modifies manager`ctrl, manager.host, dns
      ensures Valid()
      ensures !alive ==> unchanged(manager) && unchanged(manager.host)
      ensures alive ==> Restored(old(dns.memory), old(dns.acts))
      ensures alive ==> manager.ctrl.current.None? && manager.Gathered(old(manager.ctrl), r)
      ensures alive && r.Ok? ==> old(manager.ctrl).current.Some? && !terminal
                                 && manager.Gone(old(manager.ctrl).current.value.plan.epoch)
    {
      hide Manager.Inv, DnsKeeper.Inv, Manager.Gone, Manager.Gathered, Manager.Onward;
      r := Err(Error.Failed);
      alive := dns.Restore();
      if alive {
        r := manager.Stop(terminal);
      }
    }

    method Shutdown() returns (r: Result<()>, alive: bool)
      requires Valid()
      modifies manager`ctrl, manager.host, dns
      ensures Valid()
      ensures !alive ==> unchanged(manager) && unchanged(manager.host)
      ensures alive ==> Restored(old(dns.memory), old(dns.acts))
      ensures alive ==> manager.ctrl.current.None? && manager.Gathered(old(manager.ctrl), r)
      ensures alive && r.Ok? && old(manager.ctrl).current.Some? ==>
        manager.Gone(old(manager.ctrl).current.value.plan.epoch)
    {
      hide Manager.Inv, DnsKeeper.Inv, Manager.Gone, Manager.Gathered, Manager.Onward;
      r := Err(Error.Failed);
      alive := dns.Restore();
      if alive {
        r := manager.Shutdown();
      }
    }

    /** Recovers the quarantined epochs. Only when none is left is the core announced as
        stopped and the override restored, whether or not a core still runs in the slot. */
    method Recover() returns (r: Result<()>, alive: bool)
      requires Valid()
      modifies `published, manager`ctrl, manager.host, dns
      ensures Valid()
      ensures old(manager.ctrl).quarantine == [] ==>
        r == Ok(()) && alive && unchanged(this) && unchanged(manager) && unchanged(manager.host) && unchanged(dns)
      ensures manager.ctrl == old(manager.ctrl).(quarantine := manager.ctrl.quarantine)
      ensures r == (if manager.ctrl.quarantine == [] then Ok(()) else Err(Gated))
      ensures forall e | e in Epochs(old(manager.ctrl).quarantine) && e !in Epochs(manager.ctrl.quarantine) ::
        manager.Gone(e)
      ensures r.Err? ==> alive && published == old(published) && unchanged(dns)
      ensures r.Ok? && old(manager.ctrl).quarantine != [] ==>
        published == Halted && (alive ==> Restored(old(dns.memory), old(dns.acts)))
      ensures r.Ok? && old(manager.ctrl).quarantine != [] ==> (Truthful() <==> old(manager.ctrl).current.None?)
    {
      hide Manager.Inv, DnsKeeper.Inv, Manager.Gone, Epochs;
      alive := true;
      if manager.ctrl.quarantine == [] {
        return Ok(()), true;
      }
      r := manager.Recover();
      if r.Ok? {
        published := Halted;
        alive := dns.Restore();
      }
    }

    /** Applies or starts, then brings DNS in line; `now` tells whether the core in the slot
        is terminal afterwards. A refusal that leaves a core running does not touch DNS. */
    method Reconcile(spec: Spec, snapshot: Option<Snapshot>, expected: Option<Revision>, terminal: bool, now: bool)
        returns (r: Result<CoreManager.Outcome>, alive: bool)
      requires Valid()
      modifies manager, manager.host, dns
      ensures Valid()
      ensures r == Err(Gated) <==> old(manager.ctrl).quarantine != []
      ensures r == Err(Gated) ==> unchanged(manager) && unchanged(manager.host) && unchanged(dns)
      ensures r.Ok? ==> manager.ctrl.current.Some? && r.value.revision == RevisionOf(manager.ctrl.current.value.plan)
      ensures r.Err? ==> manager.Refused(old(manager.ctrl), old(manager.host.procs).launches)
      ensures r.Err? && manager.Effective(manager.ctrl, now).Some? ==> unchanged(dns)
      ensures alive && (r.Ok? || (r != Err(Gated) && manager.Effective(manager.ctrl, now).None?)) ==>
        var desired := Desired(now);
        if desired.Some? then Applied(old(dns.memory), old(dns.acts), desired.value.0, desired.value.1)
        else Restored(old(dns.memory), old(dns.acts))
    {
      hide Manager.Inv, DnsKeeper.Inv, Manager.Refused, Manager.Applied, Manager.AsClassified, Manager.Running;
      hide Manager.Onward, ApplyActs, RestoreActs;
      alive := true;
      r := manager.Reconcile(spec, snapshot, expected, terminal);
      if r != Err(Gated) && (r.Ok? || manager.Effective(manager.ctrl, now).None?) {
        var living, _ := dns.Converge(Desired(now));
        alive := living;
      }
    }
  }
}
