/**
 What the core manager acts on: processes that may still be alive, per-epoch pid
 records, runtime documents and their backups. Every operation that can fail outside
 the manager's control chooses its outcome freely within the contract it promises.
 */
module CoreHost {
  import opened Prelude
  import ConfigDiff

  type Document = ConfigDiff.Document
  type Epoch = nat
  type Pid = nat

  /** One attempt to start a core: the document it was planned with, the one it finds on
      disk, and every process that may be alive at that moment. */
  datatype Attempt = Attempt(epoch: Epoch, planned: Document, onDisk: Option<Document>, mayLive: set<Pid>,
                             bootstrap: bool, slot: Option<Pid>)

  datatype Procs = Procs(live: map<Pid, Epoch>, nextPid: Pid, launches: seq<Attempt>)

  datatype Files = Files(runtime: map<Epoch, Document>, backups: map<(Epoch, nat), Document>)

  datatype StopOutcome = Stopped | Unconfirmed | StopFailed

  datatype ReapOutcome = Dead | NoRecord | ReapFailed

  function Lookup(runtime: map<Epoch, Document>, epoch: Epoch): Option<Document> {
    if epoch in runtime then Some(runtime[epoch]) else None
  }

  function WithRuntime(files: Files, epoch: Epoch, document: Document): Files {
    files.(runtime := files.runtime[epoch := document])
  }

  predicate CanBackup(files: Files, epoch: Epoch, generation: nat) {
    epoch in files.runtime && (epoch, generation) !in files.backups
  }

  function WithBackup(files: Files, epoch: Epoch, generation: nat): Files
    requires epoch in files.runtime
  {
    files.(backups := files.backups[(epoch, generation) := files.runtime[epoch]])
  }

  /** Nothing but artifacts of `epoch` is gone. */
  ghost predicate OnlyRemoves(before: Files, after: Files, epoch: Epoch) {
    && (after.runtime == before.runtime || after.runtime == before.runtime - {epoch})
    && after.backups.Keys <= before.backups.Keys
    && (forall k | k in after.backups :: after.backups[k] == before.backups[k])
    && (forall k | k in before.backups && k.0 != epoch :: k in after.backups)
  }

  class Host {
    /** Processes leave `live` only once their death is proven. */
    var procs: Procs
    var pidFiles: map<Epoch, Pid>
    var files: Files

    constructor (artifacts: Files, records: map<Epoch, Pid>)
      ensures procs == Procs(map[], 0, []) && pidFiles == records && files == artifacts
    {
      procs, pidFiles, files := Procs(map[], 0, []), records, artifacts;
    }

    /** Fails with nothing alive, or leaves a process and its pid record behind. */
    method Launch(epoch: Epoch, planned: Document, bootstrap: bool, slot: Option<Pid>) returns (pid: Option<Pid>)
      modifies `procs, `pidFiles
      ensures var attempt := Attempt(epoch, planned, Lookup(files.runtime, epoch), old(procs).live.Keys,
              bootstrap, slot);
        if pid.Some?
        then
          && pid.value == old(procs).nextPid
          && procs == Procs(old(procs).live[pid.value := epoch], pid.value + 1, old(procs).launches + [attempt])
          && pidFiles == old(pidFiles)[epoch := pid.value]
        else
          && procs == old(procs).(launches := old(procs).launches + [attempt])
          && (pidFiles == old(pidFiles) || pidFiles == old(pidFiles) - {epoch})
    {
      var attempt := Attempt(epoch, planned, Lookup(files.runtime, epoch), procs.live.Keys, bootstrap, slot);
      procs := procs.(launches := procs.launches + [attempt]);
      var started: bool := *;
      if started {
        pid := Some(procs.nextPid);
        pidFiles := pidFiles[epoch := procs.nextPid];
        procs := procs.(live := procs.live[procs.nextPid := epoch], nextPid := procs.nextPid + 1);
      } else {
        pid := None;
        var recorded: bool := *;
        if !recorded {
          pidFiles := pidFiles - {epoch};
        }
      }
    }

    /** Only an unconfirmed stop leaves the process possibly alive. */
    method Stop(pid: Pid) returns (outcome: StopOutcome)
      modifies `procs
      ensures procs == if outcome.Unconfirmed? then old(procs) else old(procs).(live := old(procs).live - {pid})
    {
      var confirmed: bool, failed: bool := *, *;
      outcome := if !confirmed then Unconfirmed else if failed then StopFailed else Stopped;
      if confirmed {
        procs := procs.(live := procs.live - {pid});
      }
    }

    /** Proves the process named by the epoch's pid record dead; without a record, or on
        a failure, nothing is proven. */
    method Reap(epoch: Epoch) returns (outcome: ReapOutcome)
      modifies `procs
      ensures outcome.NoRecord? <==> epoch !in pidFiles
      ensures procs == if outcome.Dead? then old(procs).(live := old(procs).live - {pidFiles[epoch]}) else old(procs)
    {
      if epoch !in pidFiles {
        return NoRecord;
      }
      var proven: bool := *;
      if proven {
        procs := procs.(live := procs.live - {pidFiles[epoch]});
      }
      return if proven then Dead else ReapFailed;
    }

    /** The directory sync after the move may fail with the document already in place. */
    method CommitNew(epoch: Epoch, document: Document) returns (ok: bool)
      modifies `files
      ensures ok ==> epoch !in old(files).runtime && files == WithRuntime(old(files), epoch, document)
      ensures files == old(files) || (epoch !in old(files).runtime && files == WithRuntime(old(files), epoch, document))
    {
      var moved: bool := *;
      ok := false;
      if epoch !in files.runtime && moved {
        files := files.(runtime := files.runtime[epoch := document]);
        ok := *;
      }
    }

    /** Replaces the whole document or nothing: a failed sync is only a warning here. */
    method CommitReplace(epoch: Epoch, document: Document) returns (ok: bool)
      modifies `files
      ensures ok ==> epoch in old(files).runtime
      ensures files == if ok then WithRuntime(old(files), epoch, document) else old(files)
    {
      ok := *;
      if epoch !in files.runtime {
        ok := false;
      } else if ok {
        files := files.(runtime := files.runtime[epoch := document]);
      }
    }

    method Backup(epoch: Epoch, generation: nat) returns (ok: bool)
      modifies `files
      ensures ok ==> CanBackup(old(files), epoch, generation) && files == WithBackup(old(files), epoch, generation)
      ensures files == old(files)
        || (CanBackup(old(files), epoch, generation) && files == WithBackup(old(files), epoch, generation))
    {
      var moved: bool := *;
      ok := false;
      if epoch in files.runtime && (epoch, generation) !in files.backups && moved {
        files := files.(backups := files.backups[(epoch, generation) := files.runtime[epoch]]);
        ok := *;
      }
    }

    /** Puts the backed-up bytes back, through the same all-or-nothing replacement. */
    method Restore(epoch: Epoch, generation: nat) returns (ok: bool)
      modifies `files
      ensures ok ==> (epoch, generation) in old(files).backups && epoch in old(files).runtime
      ensures files == if ok then WithRuntime(old(files), epoch, old(files).backups[(epoch, generation)])
                       else old(files)
    {
      ok := false;
      if (epoch, generation) in files.backups {
        ok := CommitReplace(epoch, files.backups[(epoch, generation)]);
      }
    }

    method RemoveBackup(epoch: Epoch, generation: nat) returns (ok: bool)
      modifies `files
      ensures files == old(files).(backups := old(files).backups - {(epoch, generation)})
        || (!ok && files == old(files))
    {
      ok := *;
      if ok {
        files := files.(backups := files.backups - {(epoch, generation)});
      }
    }

    /** Removes the epoch's artifacts one after another; a failure leaves the rest. */
    method Cleanup(epoch: Epoch) returns (ok: bool)
      modifies `files, `pidFiles
      ensures OnlyRemoves(old(files), files, epoch)
      ensures pidFiles == old(pidFiles) || pidFiles == old(pidFiles) - {epoch}
      ensures ok ==> epoch !in files.runtime && epoch !in pidFiles && forall k | k in files.backups :: k.0 != epoch
    {
      ok := *;
      if !ok {
        return;
      }
      files := files.(runtime := files.runtime - {epoch});
      ok := *;
      if !ok {
        return;
      }
      pidFiles := pidFiles - {epoch};
      var todo := set k | k in files.backups && k.0 == epoch;
      while todo != {}
        invariant OnlyRemoves(old(files), files, epoch) && epoch !in files.runtime
        invariant forall k | k in files.backups && k.0 == epoch :: k in todo
        decreases todo
        modifies `files
      {
        ok := *;
        if !ok {
          return;
        }
        var k :| k in todo;
        if k in files.backups && k.0 == epoch {
          files := files.(backups := files.backups - {k});
        }
        todo := todo - {k};
      }
      ok := *;
    }
  }
}
