/**
 The publication transaction: stage, back up, publish, prove, commit, with rollback.
 */
module Publication {

  /*
   Every filesystem call may fail. Where each one fails is an input of the run, so a contract of
   `Reconstruct` speaks about every placement of failures. A recursive removal may fail half-way; what it
   leaves is an input as well. Renames either happen or do not.
   */

  import opened Prelude

  /** A data directory: file name to contents. */
  type Tree = map<string, Bytes>

  /** The calls of a run that may fail. */
  datatype Op =
    | Prepare | Stage | BackUp | Publish | Prove
    | RemoveLive | Restore | Occupied | RemoveStaging
    | RemoveBackup | ReleaseLock

  /** A thrown error: raised by a call, or one that reports a further failure and keeps its cause. */
  datatype Error = Raised(at: Op) | Chained(also: Op, cause: Error)

  datatype Outcome = Returned | Threw(error: Error)

  /** Which calls fail, and what a call that fails half-way leaves in place. */
  datatype Faults = Faults(
    fails: set<Op>,
    stagingLeft: Option<Tree>,
    occupant: Option<Tree>,
    liveLeft: Option<Tree>,
    removalLeft: Option<Tree>,
    backupLeft: Option<Tree>)

  /** The three paths of a run between two filesystem calls. */
  datatype Snapshot = Snapshot(live: Option<Tree>, backup: Option<Tree>, staging: Option<Tree>, committed: bool)

  /** The error at the far end of a cause chain. */
  function Root(e: Error): Op {
    match e
    case Raised(op) => op
    case Chained(_, cause) => Root(cause)
  }

  /** The calls of a run up to its commit point, in order. */
  function CallsToCommit(hadLive: bool): seq<Op> {
    [Prepare, Stage] + (if hadLive then [BackUp] else []) + [Publish, Prove]
  }

  /** The first of `ops` that fails. */
  function FirstFailure(ops: seq<Op>, fails: set<Op>): Option<Op> {
    if ops == [] then None
    else if ops[0] in fails then Some(ops[0])
    else FirstFailure(ops[1..], fails)
  }

  ghost predicate CommitsWith(f: Faults, hadLive: bool) {
    forall op :: op in CallsToCommit(hadLive) ==> op !in f.fails
  }

  /** The rollback could not put things back. */
  ghost predicate RestoreFails(f: Faults, hadLive: bool) {
    match FirstFailure(CallsToCommit(hadLive), f.fails)
    case Some(Publish) => hadLive && (f.occupant.Some? || Restore in f.fails)
    case Some(Prove) => RemoveLive in f.fails || (hadLive && Restore in f.fails)
    case _ => false
  }

  /** What stands at the live path when the run is over. */
  ghost function LiveAfter(f: Faults, initial: Option<Tree>, staged: Tree): Option<Tree> {
    var restored := if initial.Some? && Restore in f.fails then None else initial;
    match FirstFailure(CallsToCommit(initial.Some?), f.fails)
    case None => Some(staged)
    case Some(Publish) => if f.occupant.Some? then f.occupant else restored
    case Some(Prove) => if RemoveLive in f.fails then f.liveLeft else restored
    case Some(_) => initial
  }

  /** What stands at the staging path when the run is over: nothing, unless removing it is what failed. */
  ghost function StagingAfter(f: Faults, hadLive: bool): Option<Tree> {
    if FirstFailureMasked(f, hadLive) then f.removalLeft else None
  }

  /** What stands at the backup path when the run is over. */
  ghost function BackupAfter(f: Faults, initial: Option<Tree>): Option<Tree> {
    match FirstFailure(CallsToCommit(initial.Some?), f.fails)
    case None => if initial.Some? && RemoveBackup in f.fails then f.backupLeft else None
    case Some(Publish) => if f.occupant.Some? || Restore in f.fails then initial else None
    case Some(Prove) => if RemoveLive in f.fails || Restore in f.fails then initial else None
    case Some(_) => None
  }

  /**
   The rollback leaves the live path as it was and no backup behind.  A failed publish may leave something at
   the live path, and nothing removes that; a failed removal of the published tree is as good as one that
   succeeded when there was no tree to restore and it left nothing.
   */
  ghost predicate RollsBack(f: Faults, hadLive: bool) {
    match FirstFailure(CallsToCommit(hadLive), f.fails)
    case Some(Publish) => f.occupant.None? && !(hadLive && Restore in f.fails)
    case Some(Prove) => if RemoveLive in f.fails then !hadLive && f.liveLeft.None? else !(hadLive && Restore in f.fails)
    case _ => true
  }

  /** The rollback's removal of an unpublished staging directory throws over the first failure. */
  ghost predicate FirstFailureMasked(f: Faults, hadLive: bool) {
    && RemoveStaging in f.fails
    && FirstFailure(CallsToCommit(hadLive), f.fails) in {Some(Stage), Some(BackUp), Some(Publish)}
  }

  /** What a rollback after this failure throws: the failure, or what else went wrong with the failure as its cause. */
  ghost function RollBackError(f: Faults, hadLive: bool, failure: Op): Error {
    if FirstFailureMasked(f, hadLive) then Raised(RemoveStaging)
    else if !RestoreFails(f, hadLive) then Raised(failure)
    else
      var also := if failure == Publish && f.occupant.Some? then Occupied
                  else if failure == Prove && RemoveLive in f.fails then RemoveLive
                  else Restore;
      Chained(also, Raised(failure))
  }

  /** What a run that has the lock comes to; a failed release is told on top of whatever failed before it. */
  ghost function OutcomeOf(f: Faults, hadLive: bool): Outcome {
    var primary := match FirstFailure(CallsToCommit(hadLive), f.fails)
                   case None => if hadLive && RemoveBackup in f.fails then Some(Raised(RemoveBackup)) else None
                   case Some(Prepare) => Some(Raised(Prepare))
                   case Some(op) => Some(RollBackError(f, hadLive, op));
    if ReleaseLock in f.fails then
      Threw(if primary.Some? then Chained(ReleaseLock, primary.value) else Raised(ReleaseLock))
    else if primary.Some? then Threw(primary.value)
    else Returned
  }

  /** Until the commit, an initial tree is whole at the live path or in the backup. */
  ghost predicate NeverLost(initial: Option<Tree>, h: seq<Snapshot>) {
    forall i :: 0 <= i < |h| && initial.Some? && !h[i].committed ==> h[i].live == initial || h[i].backup == initial
  }

  /** Until the commit, a backup goes away only by becoming the live tree again. */
  ghost predicate BackupNeverDeleted(h: seq<Snapshot>) {
    forall i :: 0 <= i < |h| - 1 && h[i].backup.Some? && !h[i + 1].committed ==>
      h[i + 1].backup == h[i].backup || (h[i + 1].backup.None? && h[i + 1].live == h[i].backup)
  }

  /** From the commit on, the live path holds exactly the staged tree. */
  ghost predicate CommitIsFinal(staged: Tree, h: seq<Snapshot>) {
    forall i :: 0 <= i < |h| && h[i].committed ==> h[i].live == Some(staged)
  }

  class Run {
    const faults: Faults
    const staged: Tree
    ghost const initial: Option<Tree>

    var live: Option<Tree>
    var backup: Option<Tree>
    var staging: Option<Tree>

    var published: bool
    var committed: bool
    var stagingPending: bool
    var releases: nat

    /** What `Reconstruct` came to, once it is over. */
    ghost var outcome: Option<Outcome>

    /** Every state the filesystem passed through, oldest first. */
    ghost var history: seq<Snapshot>

    constructor (live: Option<Tree>, staged: Tree, faults: Faults)
      ensures Valid() && this.faults == faults && this.staged == staged && initial == live
      ensures this.live == live && backup.None? && staging.None? && !published && !committed && stagingPending
      ensures releases == 0 && outcome.None?
    {
      this.live, this.staged, this.faults, initial := live, staged, faults, live;
      backup, staging, published, committed, stagingPending, releases := None, None, false, false, true, 0;
      history, outcome := [Snapshot(live, None, None, false)], None;
    }

    ghost function Now(): Snapshot
      reads this
    {
      Snapshot(live, backup, staging, committed)
    }

    ghost predicate Valid()
      reads this
    {
      && history != [] && history[|history| - 1] == Now()
      && NeverLost(initial, history) && BackupNeverDeleted(history) && CommitIsFinal(staged, history)
    }

    /** Note the state that a filesystem call has just produced. */
    ghost method Record()
      requires history != []
      requires NeverLost(initial, history) && BackupNeverDeleted(history) && CommitIsFinal(staged, history)
      requires initial.Some? && !committed ==> live == initial || backup == initial
      requires history[|history| - 1].backup.Some? && !committed ==>
                 || backup == history[|history| - 1].backup
                 || (backup.None? && live == history[|history| - 1].backup)
      requires committed ==> live == Some(staged)
      modifies this`history
      ensures Valid()
    {
      history := history + [Now()];
    }

    /** The body of the inner `try`: everything up to and including the commit. */
    method Attempt(hadLive: bool) returns (failure: Option<Op>)
      requires Valid() && hadLive == live.Some? && live == initial && backup.None? && staging.None?
      requires !published && !committed && stagingPending && Prepare !in faults.fails
      modifies this`live, this`backup, this`staging, this`published, this`committed, this`stagingPending, this`history
      ensures Valid()
      ensures failure == FirstFailure(CallsToCommit(hadLive), faults.fails)
      ensures committed <==> failure.None?
      ensures published <==> failure.None? || failure == Some(Prove)
      ensures stagingPending <==> !published
      ensures published ==> live == Some(staged) && backup == initial
      ensures failure in {Some(Stage), Some(BackUp)} ==> live == initial && backup.None?
      ensures failure == Some(Publish) ==> live == faults.occupant && backup == initial
      ensures staging == if failure == Some(Stage) then faults.stagingLeft
                         else if failure in {Some(BackUp), Some(Publish)} then Some(staged)
                         else None
    {
      FirstFailureCases(hadLive, faults.fails);
      if Stage in faults.fails {
        staging := faults.stagingLeft;
        Record();
        return Some(Stage);
      }
      staging := Some(staged);
      Record();
      if hadLive {
        if BackUp in faults.fails {
          return Some(BackUp);
        }
        live, backup := None, live;
        Record();
      }
      if Publish in faults.fails {
        live := faults.occupant;
        Record();
        return Some(Publish);
      }
      live, staging := staging, None;
      stagingPending, published := false, true;
      Record();
      if Prove in faults.fails {
        return Some(Prove);
      }
      committed := true;
      Record();
      return None;
    }

    /** The inner `catch`, which runs before the commit only. */
    method RollBack(hadLive: bool, failure: Op) returns (thrown: Error)
      requires Valid() && !committed && hadLive == initial.Some?
      requires FirstFailure(CallsToCommit(hadLive), faults.fails) == Some(failure)
      requires failure in {Stage, BackUp, Publish, Prove}
      requires published <==> failure == Prove
      requires stagingPending <==> !published
      requires published ==> live == Some(staged) && backup == initial
      requires failure in {Stage, BackUp} ==> live == initial && backup.None?
      requires failure == Publish ==> live == faults.occupant && backup == initial
      requires published ==> staging.None?
      modifies this`live, this`backup, this`staging, this`history
      ensures Valid() && !committed
      ensures thrown == RollBackError(faults, hadLive, failure)
      ensures live == LiveAfter(faults, initial, staged)
      ensures staging == StagingAfter(faults, hadLive) && backup == BackupAfter(faults, initial)
      ensures live == initial && backup.None? <==> RollsBack(faults, hadLive)
      ensures RestoreFails(faults, hadLive) ==> backup == initial
    {
      var restoreFailure: Option<Op> := None;
      if published {
        if RemoveLive in faults.fails {
          live := faults.liveLeft;
          restoreFailure := Some(RemoveLive);
          Record();
        } else {
          live := None;
          Record();
          if backup.Some? {
            restoreFailure := RestoreBackup();
          }
        }
      } else if hadLive && backup.Some? {
        if live.Some? {
          restoreFailure := Some(Occupied);
        } else {
          restoreFailure := RestoreBackup();
        }
      }
      if stagingPending {
        if RemoveStaging in faults.fails {
          staging := faults.removalLeft;
          Record();
          return Raised(RemoveStaging);
        }
        staging := None;
        Record();
      }
      if restoreFailure.Some? {
        return Chained(restoreFailure.value, Raised(failure));
      }
      // The code also removes the backup here; none is left on any path that gets this far.
      assert backup.None?;
      return Raised(failure);
    }

    method RestoreBackup() returns (failure: Option<Op>)
      requires Valid() && !committed && live.None? && backup.Some?
      modifies this`live, this`backup, this`history
      ensures Valid() && staging == old(staging)
      ensures failure == if Restore in faults.fails then Some(Restore) else None
      ensures failure.Some? ==> live == old(live) && backup == old(backup)
      ensures failure.None? ==> live == old(backup) && backup.None?
    {
      if Restore in faults.fails {
        return Some(Restore);
      }
      live, backup := backup, None;
      Record();
      return None;
    }

    /** The body of the outer `try`: the transaction, then the removal of the backup. */
    method Transact() returns (primary: Option<Error>)
      requires Valid() && live == initial && backup.None? && staging.None?
      requires !published && !committed && stagingPending
      modifies this`live, this`backup, this`staging, this`published, this`committed, this`stagingPending, this`history
      ensures Valid()
      ensures committed <==> CommitsWith(faults, initial.Some?)
      ensures live == LiveAfter(faults, initial, staged)
      ensures staging == StagingAfter(faults, initial.Some?) && backup == BackupAfter(faults, initial)
      ensures committed ==>
                && live == Some(staged)
                && primary == (if initial.Some? && RemoveBackup in faults.fails then Some(Raised(RemoveBackup))
                               else None)
                && (primary.None? ==> backup.None?)
      ensures !committed ==> primary.Some?
      ensures ReleaseLock !in faults.fails ==>
                OutcomeOf(faults, initial.Some?) == if primary.Some? then Threw(primary.value) else Returned
      ensures ReleaseLock in faults.fails ==>
                OutcomeOf(faults, initial.Some?) ==
                Threw(if primary.Some? then Chained(ReleaseLock, primary.value) else Raised(ReleaseLock))
      ensures !committed ==>
                var first := FirstFailure(CallsToCommit(initial.Some?), faults.fails);
                first.Some? && Root(primary.value) == if FirstFailureMasked(faults, initial.Some?) then RemoveStaging
                                                      else first.value
      ensures !committed ==> (live == initial && backup.None? <==> RollsBack(faults, initial.Some?))
      ensures !committed && RestoreFails(faults, initial.Some?) ==> backup == initial
    {
      var hadLive := live.Some?;
      NoFailureMeansAllSucceed(CallsToCommit(hadLive), faults.fails);
      FirstFailureCases(hadLive, faults.fails);
      if Prepare in faults.fails {
        return Some(Raised(Prepare));
      }
      var failure := Attempt(hadLive);
      if failure.Some? {
        var thrown := RollBack(hadLive, failure.value);
        return Some(thrown);
      }
      if backup.Some? {
        if RemoveBackup in faults.fails {
          backup := faults.backupLeft;
          Record();
          return Some(Raised(RemoveBackup));
        }
        backup := None;
        Record();
      }
      return None;
    }

    /** One whole call, from the moment the lock is held. */
    method Reconstruct() returns (r: Outcome)
      requires Valid() && live == initial && backup.None? && staging.None?
      requires !published && !committed && stagingPending && releases == 0 && outcome.None?
      modifies this
      ensures outcome == Some(r) && r == OutcomeOf(faults, initial.Some?)
      // The lock is released exactly once, whatever happened.
      ensures releases == 1
      // The initial tree, the backup and the committed tree survive every placement of failures.
      ensures NeverLost(initial, history) && BackupNeverDeleted(history) && CommitIsFinal(staged, history)
      // It commits exactly when no call up to the commit fails, and then the staged tree is live.
      ensures committed <==> CommitsWith(faults, initial.Some?)
      ensures committed ==> live == Some(staged)
      // It returns exactly when it committed, the backup went away and the lock was released.
      ensures r.Returned? <==>
                && CommitsWith(faults, initial.Some?)
                && !(initial.Some? && RemoveBackup in faults.fails)
                && ReleaseLock !in faults.fails
      ensures r.Returned? ==> committed && backup.None?
      // What is live, staged and backed up at the end, whatever failed.
      ensures live == LiveAfter(faults, initial, staged)
      ensures staging == StagingAfter(faults, initial.Some?) && backup == BackupAfter(faults, initial)
      // Without a commit the live path is left as it was under exactly this condition.
      ensures !committed ==> (live == initial && backup.None? <==> RollsBack(faults, initial.Some?))
      ensures !committed && RestoreFails(faults, initial.Some?) ==> backup == initial
      // The first failure is what is thrown, or the root of its causes, unless it was masked.
      ensures r.Threw? && !committed ==>
                (FirstFailure(CallsToCommit(initial.Some?), faults.fails) == Some(Root(r.error))
                 <==> !FirstFailureMasked(faults, initial.Some?))
      ensures r.Threw? && FirstFailureMasked(faults, initial.Some?) ==> Root(r.error) == RemoveStaging
      ensures r.Threw? && committed ==>
                Root(r.error) == if initial.Some? && RemoveBackup in faults.fails then RemoveBackup else ReleaseLock
    {
      FirstFailureCases(live.Some?, faults.fails);
      var primary := Transact();
      releases := releases + 1;
      r := Returned;
      if primary.Some? {
        r := Threw(primary.value);
      }
      if ReleaseLock in faults.fails {
        r := Threw(if primary.Some? then Chained(ReleaseLock, primary.value) else Raised(ReleaseLock));
      }
      outcome := Some(r);
    }
  }

  lemma {:induction false} NoFailureMeansAllSucceed(ops: seq<Op>, fails: set<Op>)
    ensures FirstFailure(ops, fails).None? <==> forall op :: op in ops ==> op !in fails
  {
    if ops != [] {
      NoFailureMeansAllSucceed(ops[1..], fails);
      assert ops == [ops[0]] + ops[1..];
    }
  }

  /** The first failure, call by call. */
  lemma FirstFailureCases(hadLive: bool, fails: set<Op>)
    ensures FirstFailure(CallsToCommit(hadLive), fails) ==
              if Prepare in fails then Some(Prepare)
              else if Stage in fails then Some(Stage)
              else if hadLive && BackUp in fails then Some(BackUp)
              else if Publish in fails then Some(Publish)
              else if Prove in fails then Some(Prove)
              else None
  {
    var afterBackup := [Publish, Prove];
    FirstFailureOf(Prove, [], fails);
    FirstFailureOf(Publish, [Prove], fails);
    FirstFailureOf(BackUp, afterBackup, fails);
    var afterStage := (if hadLive then [BackUp] else []) + afterBackup;
    assert [Publish] + [Prove] == afterBackup;
    assert !hadLive ==> afterStage == afterBackup;
    FirstFailureOf(Stage, afterStage, fails);
    FirstFailureOf(Prepare, [Stage] + afterStage, fails);
    assert CallsToCommit(hadLive) == [Prepare] + ([Stage] + afterStage);
  }

  lemma FirstFailureOf(op: Op, rest: seq<Op>, fails: set<Op>)
    ensures FirstFailure([op] + rest, fails) == if op in fails then Some(op) else FirstFailure(rest, fails)
  {
    assert ([op] + rest)[1..] == rest;
  }

  /**
   The documented promise that the in-flight failure is never discarded has an exception:
   when staging fails and so does the removal of what was staged, only the latter surfaces.
   */
  method MaskedFailure(live: Option<Tree>, staged: Tree) returns (run: Run, r: Outcome)
    ensures run.initial == live && run.faults.fails == {Stage, RemoveStaging} && run.outcome == Some(r)
    ensures FirstFailure(CallsToCommit(live.Some?), run.faults.fails) == Some(Stage)
    ensures r == Threw(Raised(RemoveStaging))
  {
    run := new Run(live, staged, Faults({Stage, RemoveStaging}, None, None, None, None, None));
    FirstFailureCases(live.Some?, run.faults.fails);
    r := run.Reconstruct();
  }

  /**
   The documented promise that a failure before the commit leaves the live path as it was has one too: with
   no tree at first, a publish that fails and leaves something at the live path leaves it there for good.
   */
  method OccupantStays(staged: Tree, occupant: Tree) returns (run: Run, r: Outcome)
    ensures run.initial == None && run.faults.fails == {Publish} && run.outcome == Some(r)
    ensures FirstFailure(CallsToCommit(false), run.faults.fails) == Some(Publish)
    ensures r == Threw(Raised(Publish)) && !run.committed
    ensures run.live == Some(occupant)
  {
    run := new Run(None, staged, Faults({Publish}, None, Some(occupant), None, None, None));
    FirstFailureCases(false, run.faults.fails);
    r := run.Reconstruct();
  }
}
