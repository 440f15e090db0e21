/**
 What an acquisition leaves behind: a release and a withdrawal remove what they listed, a sweep removes what it
 judged dead, a heartbeat stops only when its record is out of sight, and nobody is ever stuck.
 */
module LockCleanup {
  import opened Prelude
  import opened LockProtocol

  // ----- removing one's own directories

  /** A removal in progress: the quarantines there were when it listed them, and whether no listing or read failed. */
  datatype Pass = Pass(listed: set<Name>, clean: bool)

  ghost function Marked(pass: Option<Pass>, failed: bool): Option<Pass> {
    if pass.Some? then Some(Pass(pass.value.listed, pass.value.clean && !failed)) else None
  }

  /** The last removal that `p` began in a run. */
  ghost function PassOf(h: History, p: Token): Option<Pass>
    requires Runs(h)
  {
    match h
    case Begin(_) => None
    case Then(before, st) => if st.who == p then Passed(Last(before), st, PassOf(before, p)) else PassOf(before, p)
  }

  ghost predicate Holds(s: State, n: Name, p: Token) {
    n in s.quarantines && s.quarantines[n] == Owned(p)
  }

  /** `p` is recorded neither at the canonical path nor in any of these quarantines. */
  ghost predicate Cleared(s: State, names: set<Name>, p: Token) {
    s.canonical != Some(Owned(p)) && forall n :: n in names ==> !Holds(s, n, p)
  }

  ghost predicate PassInv(s: State, pass: Option<Pass>, p: Token) {
    && s.quarantines.Keys <= s.used
    && (pass.Some? ==> pass.value.listed <= s.used)
    && p in s.procs
    && match s.procs[p]
       case RemoveReading(todo, _) =>
         pass.Some? && todo <= pass.value.listed && (pass.value.clean ==> todo == pass.value.listed)
       case RemovingCanonical(todo, _) =>
         pass.Some? && todo <= pass.value.listed && (pass.value.clean ==> todo == pass.value.listed)
       case RemoveScanning(todo, _) =>
         && pass.Some? && todo <= pass.value.listed
         && (pass.value.clean ==> Cleared(s, pass.value.listed - todo, p))
       case RemovingQuarantine(n, todo, _) =>
         && pass.Some? && todo <= pass.value.listed
         && (pass.value.clean ==> Cleared(s, pass.value.listed - todo - {n}, p))
       case _ => true
  }

  lemma UsedGrows(s: State, st: Step)
    requires Enabled(s, st) && s.quarantines.Keys <= s.used
    ensures Next(s, st).quarantines.Keys <= Next(s, st).used && s.used <= Next(s, st).used
  {
  }

  /** Nobody else records `p`: neither at the canonical path nor in a quarantine that was there. */
  lemma OthersDoNotRecord(s: State, st: Step, p: Token, n: Name)
    requires Enabled(s, st) && st.who != p && s.quarantines.Keys <= s.used
    ensures s.canonical != Some(Owned(p)) ==> Next(s, st).canonical != Some(Owned(p))
    ensures n in s.used && Holds(Next(s, st), n, p) ==> Holds(s, n, p)
    ensures p in s.procs ==> p in Next(s, st).procs && Next(s, st).procs[p] == s.procs[p]
  {
  }

  lemma PassKeptByOthers(s: State, st: Step, pass: Option<Pass>, p: Token)
    requires Enabled(s, st) && st.who != p && PassInv(s, pass, p)
    ensures PassInv(Next(s, st), pass, p)
  {
    hide Next, Enabled, Holds;
    UsedGrows(s, st);
    var s' := Next(s, st);
    forall n ensures n in s.used && Holds(s', n, p) ==> Holds(s, n, p) {
      OthersDoNotRecord(s, st, p, n);
    }
    OthersDoNotRecord(s, st, p, 0);
    if pass.Some? {
      assert forall names: set<Name> :: names <= pass.value.listed && Cleared(s, names, p) ==> Cleared(s', names, p);
    }
  }

  /** What a step of the acquisition itself makes of its removal. */
  ghost function Passed(s: State, st: Step, pass: Option<Pass>): Option<Pass> {
    match st.action
    case RemoveList(failed) => Some(Pass(s.quarantines.Keys, !failed))
    case RemoveRead(failed) => Marked(pass, failed)
    case ScanRead(_, failed) => Marked(pass, failed)
    case _ => pass
  }

  lemma PassKeptByScan(s: State, st: Step, pass: Option<Pass>)
    requires Enabled(s, st) && PassInv(s, pass, st.who) && (st.action.ScanRead? || st.action.RemoveQuarantine?)
    ensures PassInv(Next(s, st), Passed(s, st, pass), st.who)
  {
    var p := st.who;
    var pc := s.procs[p];
    var s' := Next(s, st);
    var listed := pass.value.listed;
    if st.action.RemoveQuarantine? && pass.value.clean {
      forall m | m in listed - pc.todo ensures !Holds(s', m, p) {
        assert m == pc.name || m in listed - pc.todo - {pc.name};
      }
    } else if st.action.ScanRead? && pass.value.clean && !st.action.failed {
      var n := st.action.name;
      forall m | m in listed - (pc.todo - {n}) && m != n ensures !Holds(s', m, p) {
        assert m in listed - pc.todo;
      }
    }
  }

  lemma PassKeptBySelf(s: State, st: Step, pass: Option<Pass>)
    requires Enabled(s, st) && PassInv(s, pass, st.who)
    ensures PassInv(Next(s, st), Passed(s, st, pass), st.who)
  {
    if st.action.ScanRead? || st.action.RemoveQuarantine? {
      PassKeptByScan(s, st, pass);
    } else if Withdraws(st.action) {
      PassKeptByWithdrawal(s, st, pass);
    } else {
      UsedGrows(s, st);
    }
  }

  lemma PassKeptByWithdrawal(s: State, st: Step, pass: Option<Pass>)
    requires Enabled(s, st) && PassInv(s, pass, st.who) && Withdraws(st.action)
    requires !st.action.ScanRead? && !st.action.RemoveQuarantine?
    ensures PassInv(Next(s, st), Passed(s, st, pass), st.who)
  {
  }

  lemma {:induction false} PassesAreKept(h: History, p: Token)
    requires Runs(h) && p in Last(h).procs
    ensures PassInv(Last(h), PassOf(h, p), p)
  {
    hide Next, PassInv, Passed;
    match h
    case Begin(s) => BeginsClear(s, p);
    case Then(before, st) =>
      NobodyJoins(Last(before), st);
      PassesAreKept(before, p);
      if st.who == p {
        PassKeptBySelf(Last(before), st, PassOf(before, p));
      } else {
        PassKeptByOthers(Last(before), st, PassOf(before, p), p);
      }
  }

  lemma BeginsClear(s: State, p: Token)
    requires Init(s) && p in s.procs
    ensures PassInv(s, None, p)
  {
  }

  lemma NobodyJoins(s: State, st: Step)
    requires Enabled(s, st)
    ensures Next(s, st).procs.Keys == s.procs.Keys
  {
  }

  /**
   A removal none of whose listings and reads failed has done its work when it is done: its token is not at the
   canonical path, and not in any quarantine that was there when it listed them.  A release is then over, and a
   withdrawal begins again.
   */
  lemma RemovalIsThorough(h: History, p: Token)
    requires Runs(Then(h, Step(p, RemoveDone)))
    ensures PassOf(h, p).Some?
    ensures var s' := Last(Then(h, Step(p, RemoveDone)));
            && (PassOf(h, p).value.clean ==> Cleared(s', PassOf(h, p).value.listed, p))
            && s'.procs[p] == if Last(h).procs[p].after == Finish then Gone else Start
  {
    hide Next, PassInv, Passed;
    PassesAreKept(h, p);
    DoneStep(Last(h), PassOf(h, p), p);
  }

  lemma DoneStep(s: State, pass: Option<Pass>, p: Token)
    requires Enabled(s, Step(p, RemoveDone)) && PassInv(s, pass, p)
    ensures pass.Some?
    ensures var s' := Next(s, Step(p, RemoveDone));
            && (pass.value.clean ==> Cleared(s', pass.value.listed, p))
            && s'.procs[p] == if s.procs[p].after == Finish then Gone else Start
  {
    assert pass.value.listed - {} == pass.value.listed;
  }

  /** A removal looks only at quarantines it listed. */
  lemma ScansWhatItListed(h: History, p: Token, n: Name, failed: bool)
    requires Runs(Then(h, Step(p, ScanRead(n, failed))))
    ensures PassOf(h, p).Some? && n in PassOf(h, p).value.listed
  {
    PassesAreKept(h, p);
  }

  /** A removal that fails ends a release; a withdrawal may go on or give up. */
  lemma FailedRemovalEnds(s: State, p: Token, after: After)
    requires Enabled(s, Step(p, RemoveFails(after)))
    ensures var pc := Next(s, Step(p, RemoveFails(after))).procs[p];
            pc == if s.procs[p].after == Retry && after == Retry then Start else Gone
  {
  }

  // ----- nothing left behind

  /** No removal of `p` failed in any of its calls, and `p` did not crash. */
  ghost predicate Diligent(h: History, p: Token) {
    match h
    case Begin(_) => true
    case Then(before, st) =>
      && Diligent(before, p)
      && (st.who == p ==>
            match st.action
            case RemoveList(failed) => !failed
            case RemoveRead(failed) => !failed
            case ScanRead(_, failed) => !failed
            case RemoveFails(_) => false
            case RemoveAgain(_) => false
            case Abandon => false
            case _ => true)
  }

  /** Neither claiming nor owning nor on the way out of either. */
  predicate Uninvolved(pc: Pc) {
    || pc.Start? || pc.Sweeping? || pc.SweepRemoving? || pc.Creating? || pc.Created? || pc.Inspecting? || pc.Reaping?
    || pc.ReapReading? || pc.ReapRemoving? || pc.Gone?
  }

  lemma {:induction false} DiligentIsClean(h: History, p: Token)
    requires Runs(h) && Diligent(h, p) && PassOf(h, p).Some?
    ensures PassOf(h, p).value.clean
  {
    if h.Then? && !(h.step.who == p && h.step.action.RemoveList?) {
      DiligentIsClean(h.before, p);
    }
  }

  lemma UninvolvedStep(s: State, st: Step, pass: Option<Pass>)
    requires Enabled(s, st) && PassInv(s, pass, st.who) && (pass.Some? ==> pass.value.clean)
    requires !st.action.RemoveFails? && !st.action.RemoveAgain? && !st.action.Abandon?
    requires Uninvolved(s.procs[st.who]) ==> s.canonical != Some(Owned(st.who))
    ensures Uninvolved(Next(s, st).procs[st.who]) ==> Next(s, st).canonical != Some(Owned(st.who))
  {
  }

  /**
   Whoever gave up, lost or released the lock does not block it: as long as none of its removals failed and it
   did not crash, its token is not at the canonical path unless it is claiming, owning or on its way out.
   */
  lemma {:induction false} NothingLeftBehind(h: History, p: Token)
    requires Runs(h) && p in Last(h).procs && Diligent(h, p) && Uninvolved(Last(h).procs[p])
    ensures Last(h).canonical != Some(Owned(p))
  {
    hide Next, PassInv;
    match h
    case Begin(_) =>
    case Then(before, st) =>
      var s := Last(before);
      NobodyJoins(s, st);
      if Uninvolved(s.procs[p]) {
        NothingLeftBehind(before, p);
      }
      if st.who == p {
        PassesAreKept(before, p);
        if PassOf(before, p).Some? {
          DiligentIsClean(before, p);
        }
        UninvolvedStep(s, st, PassOf(before, p));
      } else {
        InPassUsed(before, p);
        OthersDoNotRecord(s, st, p, 0);
      }
  }

  lemma InPassUsed(h: History, p: Token)
    requires Runs(h) && p in Last(h).procs
    ensures Last(h).quarantines.Keys <= Last(h).used
  {
    PassesAreKept(h, p);
  }

  // ----- sweeping

  /** A sweep in progress: the quarantines it had to look at, those it read, and those it judged dead. */
  datatype Sweep = Sweep(listed: set<Name>, read: set<Name>, dead: set<Name>)

  ghost function SweepOf(h: History, p: Token): Option<Sweep>
    requires Runs(h)
  {
    match h
    case Begin(_) => None
    case Then(before, st) => if st.who == p then Swept(Last(before), st, SweepOf(before, p)) else SweepOf(before, p)
  }

  ghost function Swept(s: State, st: Step, sweep: Option<Sweep>): Option<Sweep> {
    match st.action
    case ListForSweep(failed) => Some(Sweep(if failed then {} else s.quarantines.Keys, {}, {}))
    case SweepRead(n, dead) =>
      if sweep.None? then None
      else
        var w := sweep.value;
        Some(Sweep(w.listed, w.read + {n}, if dead then w.dead + {n} else w.dead))
    case _ => sweep
  }

  ghost predicate SweepInv(s: State, sweep: Option<Sweep>, p: Token) {
    && s.quarantines.Keys <= s.used
    && (sweep.Some? ==> sweep.value.listed <= s.used && sweep.value.dead <= sweep.value.listed)
    && p in s.procs
    && match s.procs[p]
       case Sweeping(todo) =>
         && sweep.Some? && sweep.value.read + todo == sweep.value.listed
         && sweep.value.dead !! s.quarantines.Keys
       case SweepRemoving(n, todo) =>
         && sweep.Some? && sweep.value.read + todo == sweep.value.listed
         && sweep.value.dead - {n} !! s.quarantines.Keys
       case _ => true
  }

  lemma SweepStep(s: State, st: Step, sweep: Option<Sweep>, p: Token)
    requires Enabled(s, st) && SweepInv(s, sweep, p)
    ensures SweepInv(Next(s, st), if st.who == p then Swept(s, st, sweep) else sweep, p)
  {
    UsedGrows(s, st);
    assert forall n :: n in s.used && n !in s.quarantines ==> n !in Next(s, st).quarantines;
  }

  lemma {:induction false} SweepsAreKept(h: History, p: Token)
    requires Runs(h) && p in Last(h).procs
    ensures SweepInv(Last(h), SweepOf(h, p), p)
  {
    hide Next, SweepInv, Swept;
    match h
    case Begin(s) => BeginsUnswept(s, p);
    case Then(before, st) =>
      NobodyJoins(Last(before), st);
      SweepsAreKept(before, p);
      SweepStep(Last(before), st, SweepOf(before, p), p);
  }

  lemma BeginsUnswept(s: State, p: Token)
    requires Init(s) && p in s.procs
    ensures SweepInv(s, None, p)
  {
  }

  /** When a sweep is done it has read every quarantine it listed, and all that it judged dead are gone. */
  lemma SweepIsThorough(h: History, p: Token)
    requires Runs(Then(h, Step(p, SweepDone)))
    ensures SweepOf(h, p).Some?
    ensures var sweep, s' := SweepOf(h, p).value, Last(Then(h, Step(p, SweepDone)));
            sweep.read == sweep.listed && sweep.dead !! s'.quarantines.Keys
  {
    SweepsAreKept(h, p);
  }

  // ----- reaping

  /**
   A directory renamed away is removed if and only if the token read in it is the one that was observed before;
   a directory that cannot be read, or has no valid record, has no token.
   */
  lemma ReapsWhatItObserved(s: State, p: Token, failed: bool)
    requires Enabled(s, Step(p, ReapRead(failed)))
    ensures var n, pc := s.procs[p].name, Next(s, Step(p, ReapRead(failed))).procs[p];
            var token := if !failed && n in s.quarantines && s.quarantines[n].Owned? then Some(s.quarantines[n].token)
                         else None;
            pc == if token == s.procs[p].observed then ReapRemoving(n) else Start
  {
  }

  // ----- the heartbeat

  /** At some beat, `p` could not read its own record at the canonical path. */
  ghost predicate LostSight(h: History, p: Token)
    requires Runs(h)
  {
    match h
    case Begin(_) => false
    case Then(before, st) =>
      || LostSight(before, p)
      || (st.who == p && st.action.BeatRead? && (st.action.failed || Last(before).canonical != Some(Owned(p))))
  }

  /** A heartbeat that has stopped by itself did so because its record was out of sight. */
  lemma {:induction false} HeartbeatStopsForCause(h: History, p: Token)
    requires Runs(h) && p in Last(h).procs
    requires StoppedBeating(Last(h).procs[p])
    ensures LostSight(h, p)
  {
    hide Next, Enabled;
    match h
    case Begin(_) =>
    case Then(before, st) =>
      var s := Last(before);
      NobodyJoins(s, st);
      BeatStep(s, st, p);
      if StoppedBeating(s.procs[p]) {
        HeartbeatStopsForCause(before, p);
      }
  }

  predicate StoppedBeating(pc: Pc) {
    pc == Held(Beat.Cleared) || pc == Stopping(Beat.Cleared)
  }

  lemma BeatStep(s: State, st: Step, p: Token)
    requires Enabled(s, st) && p in s.procs && p in Next(s, st).procs && StoppedBeating(Next(s, st).procs[p])
    ensures || StoppedBeating(s.procs[p])
            || (st.who == p && st.action.BeatRead? && (st.action.failed || s.canonical != Some(Owned(p))))
  {
  }

  /** `p` has a beat under way: it read its own record and has not finished writing it. */
  ghost predicate BeatUnderWay(h: History, p: Token)
    requires Runs(h)
  {
    match h
    case Begin(_) => false
    case Then(before, st) =>
      if st.who != p then BeatUnderWay(before, p)
      else if st.action.BeatRead? then !st.action.failed && Last(before).canonical == Some(Owned(p))
      else !st.action.BeatWrite? && !st.action.BeatFails? && BeatUnderWay(before, p)
  }

  /** A release waits for the beat that is under way: no removal begins before it has ended. */
  lemma {:induction false} HeartbeatIsAwaited(h: History, p: Token)
    requires Runs(h) && p in Last(h).procs && !Last(h).procs[p].Gone?
    ensures BeatUnderWay(h, p) <==> IsArmed(Last(h).procs[p])
  {
    hide Next, Enabled;
    match h
    case Begin(_) =>
    case Then(before, st) =>
      var s := Last(before);
      NobodyJoins(s, st);
      ArmedStep(s, st, p);
      HeartbeatIsAwaited(before, p);
  }

  predicate IsArmed(pc: Pc) {
    pc == Held(Armed) || pc == Stopping(Armed)
  }

  lemma ArmedStep(s: State, st: Step, p: Token)
    requires Enabled(s, st) && p in s.procs && p in Next(s, st).procs && !Next(s, st).procs[p].Gone?
    ensures !s.procs[p].Gone?
    ensures IsArmed(Next(s, st).procs[p]) <==>
            if st.who != p then IsArmed(s.procs[p])
            else if st.action.BeatRead? then !st.action.failed && s.canonical == Some(Owned(p))
            else !st.action.BeatWrite? && !st.action.BeatFails? && IsArmed(s.procs[p])
  {
  }

  // ----- the directories

  /** A write of the owner record may always fail, and may succeed if and only if the directory is there. */
  lemma WritesNeedTheDirectory(s: State, p: Token)
    requires p in s.procs
    ensures s.procs[p].Created? ==>
              Enabled(s, Step(p, WriteFails(Retry))) && (Enabled(s, Step(p, WriteFirst)) <==> s.canonical.Some?)
    ensures s.procs[p].Confirmed? ==>
              Enabled(s, Step(p, WriteFails(Retry))) && (Enabled(s, Step(p, Promote)) <==> s.canonical.Some?)
    ensures IsArmed(s.procs[p]) ==>
              Enabled(s, Step(p, BeatFails)) && (Enabled(s, Step(p, BeatWrite)) <==> s.canonical.Some?)
  {
  }

  /** What may happen to the directory at the canonical path. */
  ghost predicate CanonicalChange(s: State, s': State, st: Step) {
    if s.canonical.None? then s'.canonical == if st.action.Mkdir? then Some(NoRecord) else None
    else if st.action.RenameAway? || st.action.RemoveCanonical? then s'.canonical == None
    else if st.action.WriteFirst? || st.action.Promote? || st.action.BeatWrite? then
      s'.canonical == Some(Owned(st.who))
    else s'.canonical == s.canonical
  }

  /** What may happen to the quarantines: a rename adds what stood at the canonical path, removals take one away. */
  ghost predicate QuarantineChange(s: State, s': State, st: Step) {
    match st.action
    case RenameAway(name) =>
      s'.quarantines == if s.canonical.None? then s.quarantines else s.quarantines[name := s.canonical.value]
    case SweepRemove => Dropped(s, s')
    case ReapRemove => Dropped(s, s')
    case RemoveQuarantine => Dropped(s, s')
    case _ => s'.quarantines == s.quarantines
  }

  ghost predicate Dropped(s: State, s': State) {
    exists n :: n !in s'.quarantines && s'.quarantines == s.quarantines - {n}
  }

  lemma DirectoriesChangeAsNamed(s: State, st: Step)
    requires Enabled(s, st)
    ensures CanonicalChange(s, Next(s, st), st) && QuarantineChange(s, Next(s, st), st)
    ensures Next(s, st).procs.Keys == s.procs.Keys
    ensures forall p :: p in s.procs && p != st.who ==> Next(s, st).procs[p] == s.procs[p]
  {
    var s' := Next(s, st);
    if st.action.SweepRemove? || st.action.ReapRemove? || st.action.RemoveQuarantine? {
      var n := s.procs[st.who].name;
      assert n !in s'.quarantines && s'.quarantines == s.quarantines - {n};
    }
  }

  // ----- progress

  /** Whoever is not gone has a step to take other than to crash, whatever the others left on disk. */
  lemma NobodyIsStuck(s: State, p: Token) returns (a: Action)
    requires p in s.procs && !s.procs[p].Gone?
    ensures !a.Abandon? && Enabled(s, Step(p, a))
  {
    match s.procs[p]
    case Start => a := ListForSweep(false);
    case Sweeping(todo) =>
      if todo == {} {
        a := SweepDone;
      } else {
        var n :| n in todo;
        a := SweepRead(n, false);
      }
    case SweepRemoving(_, _) => a := SweepRemove;
    case Creating => a := Mkdir;
    case Created => a := WriteFails(Retry);
    case Written => a := ListQuarantines(false);
    case FirstListed => a := ReadCanonical(false);
    case Confirmed => a := WriteFails(Retry);
    case Promoted => a := ListQuarantines(false);
    case SecondListed => a := ReadCanonical(false);
    case Held(_) => a := BeginRelease;
    case Stopping(beat) => a := if beat == Armed then BeatFails else HeartbeatStopped;
    case Inspecting => a := Inspect(Wait);
    case Reaping(_) =>
      var n := FreshName(s.used);
      a := RenameAway(n);
    case ReapReading(_, _) => a := ReapRead(false);
    case ReapRemoving(_) => a := ReapRemove;
    case RemoveListing(_) => a := RemoveList(false);
    case RemoveReading(_, _) => a := RemoveRead(false);
    case RemovingCanonical(_, _) => a := RemoveCanonical;
    case RemoveScanning(todo, _) =>
      if todo == {} {
        a := RemoveDone;
      } else {
        var n :| n in todo;
        a := ScanRead(n, false);
      }
    case RemovingQuarantine(_, _, _) => a := RemoveQuarantine;
  }

  lemma FreshName(used: set<Name>) returns (n: Name)
    ensures n !in used
  {
    n := 0;
    var low: set<Name> := {};
    while used - low != {}
      invariant low <= used && forall m :: m in low ==> m < n
      decreases used - low
    {
      var m :| m in used - low;
      if n <= m {
        n := m + 1;
      }
      low := low + {m};
    }
    assert n in used ==> n in used - low;
  }
}
