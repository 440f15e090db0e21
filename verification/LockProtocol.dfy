/**
 The data-directory lock as a transition system.
 */
module LockProtocol {

  /*
   Any number of acquisitions share one filesystem: the canonical lock directory and the quarantine
   directories that reapers rename it to. Every filesystem call that the code awaits is one atomic step, so
   another acquisition may run between any two of them: the list and the read of a confirmation, the read
   and the write of a heartbeat, the read and the removal of a release.

   The steps are the code's own, with every verdict of the clock left to the environment. What the code
   needs from that environment to be a lock is written down as A1 to A4.
   */

  import opened Prelude

  /** One acquisition draws one random token; the token names the acquisition here. */
  type Token = nat

  /** The random suffix of a quarantine directory. */
  type Name = nat

  /** What reading a lock directory's owner file gives: nothing valid, or an owner. */
  datatype Owner = NoRecord | Owned(token: Token)

  /** The heartbeat timer: between beats, past its ownership check, or cleared. */
  datatype Beat = Idle | Armed | Cleared

  /** Where a removal of one's own directories returns to. */
  datatype After = Retry | Finish

  datatype Pc =
    | Start
    | Sweeping(todo: set<Name>)
    | SweepRemoving(name: Name, todo: set<Name>)
    | Creating
    | Created
    | Written
    | FirstListed
    | Confirmed
    | Promoted
    | SecondListed
    | Held(beat: Beat)
    | Stopping(beat: Beat)
    | Inspecting
    | Reaping(observed: Option<Token>)
    | ReapReading(name: Name, observed: Option<Token>)
    | ReapRemoving(name: Name)
    | RemoveListing(after: After)
    | RemoveReading(todo: set<Name>, after: After)
    | RemovingCanonical(todo: set<Name>, after: After)
    | RemoveScanning(todo: set<Name>, after: After)
    | RemovingQuarantine(name: Name, todo: set<Name>, after: After)
    | Gone

  /** `used` holds every quarantine name drawn so far: a fresh name is outside it. */
  datatype State = State(
    canonical: Option<Owner>,
    quarantines: map<Name, Owner>,
    used: set<Name>,
    procs: map<Token, Pc>)

  /** How an inspection of an existing lock directory ends. */
  datatype Verdict = Wait | StaleInvalid | StaleOwner

  datatype Action =
    | ListForSweep(failed: bool)
    | SweepRead(name: Name, dead: bool)
    | SweepRemove
    | SweepDone
    | Mkdir
    | WriteFirst
    | WriteFails(after: After)
    | ListQuarantines(failed: bool)
    | ReadCanonical(failed: bool)
    | Promote
    | BeatRead(failed: bool)
    | BeatWrite
    | BeatFails
    | BeginRelease
    | HeartbeatStopped
    | Inspect(verdict: Verdict)
    | RenameAway(name: Name)
    | ReapRead(failed: bool)
    | ReapRemove
    | RemoveList(failed: bool)
    | RemoveRead(failed: bool)
    | RemoveCanonical
    | ScanRead(name: Name, failed: bool)
    | RemoveQuarantine
    | RemoveDone
    | RemoveFails(after: After)
    | RemoveAgain(after: After)
    | Abandon

  datatype Step = Step(who: Token, action: Action)

  // ----- the steps

  /** Reading the owner file of a quarantine: a vanished directory reads as invalid. */
  function OwnerOf(s: State, n: Name): Owner {
    if n in s.quarantines then s.quarantines[n] else NoRecord
  }

  /** Listing the quarantines: a failed listing is reported as an empty one. */
  function Listing(s: State, failed: bool): set<Name> {
    if failed then {} else s.quarantines.Keys
  }

  predicate Enabled(s: State, st: Step) {
    st.who in s.procs &&
    var pc := s.procs[st.who];
    match st.action
    case ListForSweep(_) => pc.Start?
    case SweepRead(n, dead) => pc.Sweeping? && n in pc.todo && (dead ==> n in s.quarantines)
    case SweepRemove => pc.SweepRemoving?
    case SweepDone => pc.Sweeping? && pc.todo == {}
    case Mkdir => pc.Creating?
    case WriteFirst => pc.Created? && s.canonical.Some?
    case WriteFails(_) => pc.Created? || pc.Confirmed?
    case ListQuarantines(_) => pc.Written? || pc.Promoted?
    case ReadCanonical(_) => pc.FirstListed? || pc.SecondListed?
    case Promote => pc.Confirmed? && s.canonical.Some?
    case BeatRead(_) => pc == Held(Idle)
    case BeatWrite => (pc == Held(Armed) || pc == Stopping(Armed)) && s.canonical.Some?
    case BeatFails => pc == Held(Armed) || pc == Stopping(Armed)
    case BeginRelease => pc.Held?
    case HeartbeatStopped => pc.Stopping? && pc.beat != Armed
    case Inspect(v) => pc.Inspecting? && (v == StaleOwner ==> s.canonical.Some? && s.canonical.value.Owned?)
    case RenameAway(name) => pc.Reaping? && name !in s.used
    case ReapRead(_) => pc.ReapReading?
    case ReapRemove => pc.ReapRemoving?
    case RemoveList(_) => pc.RemoveListing?
    case RemoveRead(_) => pc.RemoveReading?
    case RemoveCanonical => pc.RemovingCanonical?
    case ScanRead(n, _) => pc.RemoveScanning? && n in pc.todo
    case RemoveQuarantine => pc.RemovingQuarantine?
    case RemoveDone => pc.RemoveScanning? && pc.todo == {}
    case RemoveFails(_) => Removing(pc)
    case RemoveAgain(_) => Removing(pc) && pc.after == Retry
    case Abandon => true
  }

  predicate Removing(pc: Pc) {
    pc.RemoveListing? || pc.RemoveReading? || pc.RemovingCanonical? || pc.RemoveScanning? || pc.RemovingQuarantine?
  }

  function Goto(s: State, p: Token, pc: Pc): State {
    s.(procs := s.procs[p := pc])
  }

  function AfterRemoval(after: After): Pc {
    if after == Retry then Start else Gone
  }

  /** A failed removal surfaces as an error; a release never goes back to acquiring. */
  function AfterFailure(pc: Pc, after: After): Pc
    requires Removing(pc)
  {
    if pc.after == Finish then Gone else AfterRemoval(after)
  }

  function Next(s: State, st: Step): State
    requires Enabled(s, st)
  {
    var p := st.who;
    var pc := s.procs[p];
    match st.action
    case ListForSweep(failed) => Goto(s, p, Sweeping(Listing(s, failed)))
    case SweepRead(n, dead) =>
      if dead then Goto(s, p, SweepRemoving(n, pc.todo - {n}))
      else Goto(s, p, Sweeping(pc.todo - {n}))
    case SweepRemove => Goto(s.(quarantines := s.quarantines - {pc.name}), p, Sweeping(pc.todo))
    case SweepDone => Goto(s, p, Creating)
    case Mkdir =>
      if s.canonical.None? then Goto(s.(canonical := Some(NoRecord)), p, Created)
      else Goto(s, p, Inspecting)
    case WriteFirst => Goto(s.(canonical := Some(Owned(p))), p, Written)
    case WriteFails(after) => Goto(s, p, RemoveListing(after))
    case ListQuarantines(failed) =>
      if Listing(s, failed) != {} then Goto(s, p, RemoveListing(Retry))
      else Goto(s, p, if pc.Written? then FirstListed else SecondListed)
    case ReadCanonical(failed) =>
      if failed || s.canonical != Some(Owned(p)) then Goto(s, p, RemoveListing(Retry))
      else Goto(s, p, if pc.FirstListed? then Confirmed else Held(Idle))
    case Promote => Goto(s.(canonical := Some(Owned(p))), p, Promoted)
    case BeatRead(failed) => Goto(s, p, Held(if !failed && s.canonical == Some(Owned(p)) then Armed else Cleared))
    case BeatWrite => Goto(s.(canonical := Some(Owned(p))), p, pc.(beat := Idle))
    case BeatFails => Goto(s, p, pc.(beat := Idle))
    case BeginRelease => Goto(s, p, Stopping(pc.beat))
    case HeartbeatStopped => Goto(s, p, RemoveListing(Finish))
    case Inspect(v) =>
      Goto(s, p, match v
                 case Wait => Start
                 case StaleInvalid => Reaping(None)
                 case StaleOwner => Reaping(Some(s.canonical.value.token)))
    case RenameAway(name) =>
      if s.canonical.None? then Goto(s, p, Start)
      else Goto(State(None, s.quarantines[name := s.canonical.value], s.used + {name}, s.procs),
                p, ReapReading(name, pc.observed))
    case ReapRead(failed) =>
      var record := if failed then NoRecord else OwnerOf(s, pc.name);
      var same := if pc.observed.None? then record == NoRecord else record == Owned(pc.observed.value);
      Goto(s, p, if same then ReapRemoving(pc.name) else Start)
    case ReapRemove => Goto(s.(quarantines := s.quarantines - {pc.name}), p, Start)
    case RemoveList(failed) => Goto(s, p, RemoveReading(Listing(s, failed), pc.after))
    case RemoveRead(failed) =>
      Goto(s, p, if !failed && s.canonical == Some(Owned(p)) then RemovingCanonical(pc.todo, pc.after)
                 else RemoveScanning(pc.todo, pc.after))
    case RemoveCanonical => Goto(s.(canonical := None), p, RemoveScanning(pc.todo, pc.after))
    case ScanRead(n, failed) =>
      Goto(s, p, if !failed && OwnerOf(s, n) == Owned(p) then RemovingQuarantine(n, pc.todo - {n}, pc.after)
                 else RemoveScanning(pc.todo - {n}, pc.after))
    case RemoveQuarantine =>
      Goto(s.(quarantines := s.quarantines - {pc.name}), p, RemoveScanning(pc.todo, pc.after))
    case RemoveDone => Goto(s, p, AfterRemoval(pc.after))
    case RemoveFails(after) => Goto(s, p, AfterFailure(pc, after))
    case RemoveAgain(after) => Goto(s, p, RemoveListing(after))
    case Abandon => Goto(s, p, Gone)
  }

  // ----- what the environment must provide

  /** An acquisition that may still come to own the lock or still owns it. */
  predicate Live(s: State, t: Token) {
    t in s.procs && !s.procs[t].Gone? && !(Removing(s.procs[t]) && s.procs[t].after == Finish)
  }

  /** A1: no verdict of the clock or of the process table calls a live owner dead. */
  predicate A1(s: State, st: Step)
    requires Enabled(s, st)
  {
    match st.action
    case SweepRead(n, dead) =>
      dead && s.quarantines[n].Owned? ==> !Live(s, s.quarantines[n].token)
    case Inspect(v) => v == StaleOwner ==> !Live(s, s.canonical.value.token)
    case _ => true
  }

  predicate Undisturbed(s: State, st: Step, at: Pc -> bool)
    requires Enabled(s, st)
  {
    Next(s, st).canonical != s.canonical ==>
      forall p :: p in s.procs && p != st.who ==> !at(s.procs[p])
  }

  /** A2: at the canonical path, nothing comes between reading one's token and removing. */
  predicate A2(s: State, st: Step)
    requires Enabled(s, st)
  {
    Undisturbed(s, st, (pc: Pc) => pc.RemovingCanonical?)
  }

  /** A3: nothing comes between creating the directory and writing its first record. */
  predicate A3(s: State, st: Step)
    requires Enabled(s, st)
  {
    Undisturbed(s, st, (pc: Pc) => pc.Created?)
  }

  /** A4: the listing of a confirmation and the read after a rename report what is there. */
  predicate A4(s: State, st: Step)
    requires Enabled(s, st)
  {
    (st.action.ListQuarantines? || st.action.ReapRead?) ==> !st.action.failed
  }

  datatype Assumption = LiveNeverStale | RemovalUndisturbed | CreationUndisturbed | ReadsReport

  predicate Meets(a: Assumption, s: State, st: Step)
    requires Enabled(s, st)
  {
    match a
    case LiveNeverStale => A1(s, st)
    case RemovalUndisturbed => A2(s, st)
    case CreationUndisturbed => A3(s, st)
    case ReadsReport => A4(s, st)
  }

  // ----- runs

  /** Every acquisition is at the top of its loop; directories left by others may exist. */
  predicate Init(s: State) {
    && (forall p :: p in s.procs ==> s.procs[p] == Start)
    && s.quarantines.Keys <= s.used
    && (s.canonical.Some? && s.canonical.value.Owned? ==> s.canonical.value.token !in s.procs)
    && (forall n :: n in s.quarantines && s.quarantines[n].Owned? ==> s.quarantines[n].token !in s.procs)
  }

  /** A run: where it began and every step since. */
  datatype History = Begin(first: State) | Then(before: History, step: Step)

  ghost predicate Runs(h: History)
    decreases h, 0
  {
    match h
    case Begin(s) => Init(s)
    case Then(h, st) => Runs(h) && Enabled(Last(h), st)
  }

  ghost function Last(h: History): State
    requires Runs(h)
    decreases h, 1
  {
    match h
    case Begin(s) => s
    case Then(h, st) => Next(Last(h), st)
  }

  /** A run whose every step meets every assumption, except perhaps those waived. */
  ghost predicate TrustedBut(h: History, waived: set<Assumption>) {
    Runs(h) &&
    match h
    case Begin(_) => true
    case Then(h, st) => TrustedBut(h, waived) && forall a :: a !in waived ==> Meets(a, Last(h), st)
  }

  ghost predicate Trusted(h: History) {
    TrustedBut(h, {})
  }

  predicate TrustedStep(s: State, st: Step)
    requires Enabled(s, st)
  {
    A1(s, st) && A2(s, st) && A3(s, st) && A4(s, st)
  }

  // ----- what is to be shown

  /** Between a successful claim and the removal of its directories by its release. */
  predicate Owns(s: State, p: Token) {
    p in s.procs && (s.procs[p].Held? || s.procs[p].Stopping?)
  }

  ghost predicate MutualExclusion(s: State) {
    forall p, q :: Owns(s, p) && Owns(s, q) ==> p == q
  }

  /** The token is recorded in the canonical directory or in some quarantine. */
  ghost predicate Recorded(s: State, p: Token) {
    s.canonical == Some(Owned(p)) || exists n :: n in s.quarantines && s.quarantines[n] == Owned(p)
  }

  /** Past its first confirmation and not yet withdrawing: may write to the canonical path. */
  predicate Entitled(s: State, p: Token) {
    p in s.procs &&
    var pc := s.procs[p];
    pc.Confirmed? || pc.Promoted? || pc.SecondListed? || pc.Held? || pc.Stopping?
  }

  // ----- the invariant

  /** A directory that any sweeper or reaper may delete. */
  predicate Dead(s: State, o: Owner) {
    o.NoRecord? || !Live(s, o.token)
  }

  predicate PcInv(s: State, p: Token)
    requires p in s.procs
  {
    match s.procs[p]
    case Sweeping(todo) => todo <= s.used
    case SweepRemoving(n, todo) => n in s.used && todo <= s.used && Dead(s, OwnerOf(s, n))
    case Created => s.canonical == Some(NoRecord)
    case Reaping(o) => o.Some? ==> !Live(s, o.value)
    case ReapReading(n, o) => n in s.used && (o.Some? ==> !Live(s, o.value))
    case ReapRemoving(n) => n in s.used && Dead(s, OwnerOf(s, n))
    case RemoveReading(todo, _) => todo <= s.used
    case RemovingCanonical(todo, _) => todo <= s.used && s.canonical == Some(Owned(p))
    case RemoveScanning(todo, _) => todo <= s.used
    case RemovingQuarantine(n, todo, _) =>
      n in s.used && todo <= s.used && (n in s.quarantines ==> s.quarantines[n] == Owned(p))
    case _ => true
  }

  ghost predicate PcsInv(s: State) {
    && s.quarantines.Keys <= s.used
    && forall p :: p in s.procs ==> PcInv(s, p)
  }

  ghost predicate StakesInv(s: State) {
    forall p :: Entitled(s, p) ==> Recorded(s, p)
  }

  ghost predicate OneEntitled(s: State) {
    forall p, q :: Entitled(s, p) && Entitled(s, q) ==> p == q
  }

  /** A claimant that listed no quarantine and whose token is still the canonical one. */
  predicate Unrivalled(s: State, c: Token) {
    c in s.procs && s.procs[c].FirstListed? && s.canonical == Some(Owned(c))
  }

  ghost predicate NoRivals(s: State) {
    forall c, p :: Unrivalled(s, c) ==> !Entitled(s, p)
  }

  ghost predicate Inv(s: State) {
    PcsInv(s) && StakesInv(s) && OneEntitled(s) && NoRivals(s)
  }

  lemma InitInv(s: State)
    requires Init(s)
    ensures Inv(s)
  {
  }

  /** An acquisition that is over stays over. */
  lemma LiveShrinks(s: State, st: Step, t: Token)
    requires Enabled(s, st) && Live(Next(s, st), t)
    ensures Live(s, t)
  {
  }

  /** Quarantines keep their record: only fresh names appear, and nothing is rewritten. */
  lemma QuarantinesImmutable(s: State, st: Step, n: Name)
    requires Enabled(s, st) && PcsInv(s)
    ensures n in s.used && n in Next(s, st).quarantines ==>
              n in s.quarantines && Next(s, st).quarantines[n] == s.quarantines[n]
  {
  }

  lemma DeadStays(s: State, st: Step, n: Name)
    requires Enabled(s, st) && PcsInv(s) && n in s.used && Dead(s, OwnerOf(s, n))
    ensures Dead(Next(s, st), OwnerOf(Next(s, st), n))
  {
    QuarantinesImmutable(s, st, n);
    var o := OwnerOf(Next(s, st), n);
    if o.Owned? && Live(Next(s, st), o.token) {
      LiveShrinks(s, st, o.token);
    }
  }

  lemma NotLiveStays(s: State, st: Step, o: Option<Token>)
    requires Enabled(s, st) && (o.Some? ==> !Live(s, o.value))
    ensures o.Some? ==> !Live(Next(s, st), o.value)
  {
    if o.Some? && Live(Next(s, st), o.value) {
      LiveShrinks(s, st, o.value);
    }
  }

  /** A bystander's place in the protocol stays consistent with the directories. */
  lemma BystanderPc(s: State, st: Step, p: Token)
    requires Enabled(s, st) && TrustedStep(s, st) && PcsInv(s)
    requires p in s.procs && p != st.who
    ensures PcInv(Next(s, st), p)
  {
    var s' := Next(s, st);
    assert PcInv(s, p);
    assert s'.procs[p] == s.procs[p];
    match s.procs[p]
    case SweepRemoving(n, _) => DeadStays(s, st, n);
    case Reaping(o) => NotLiveStays(s, st, o);
    case ReapReading(_, o) => NotLiveStays(s, st, o);
    case ReapRemoving(n) => DeadStays(s, st, n);
    case RemovingQuarantine(n, _, _) => QuarantinesImmutable(s, st, n);
    case _ =>
  }

  /** Actions that judge or take over what another acquisition left. */
  predicate Judges(a: Action) {
    a.SweepRead? || a.Inspect? || a.RenameAway? || a.ReapRead?
  }

  /** Actions of a withdrawal or a release. */
  predicate Withdraws(a: Action) {
    || a.RemoveList? || a.RemoveRead? || a.RemoveCanonical? || a.ScanRead? || a.RemoveQuarantine? || a.RemoveDone?
    || a.RemoveFails? || a.RemoveAgain?
  }

  lemma JudgePc(s: State, st: Step)
    requires Enabled(s, st) && TrustedStep(s, st) && PcsInv(s) && Judges(st.action)
    ensures PcInv(Next(s, st), st.who)
  {
    hide A2, A3;
    assert PcInv(s, st.who);
    var s' := Next(s, st);
    match st.action
    case SweepRead(n, dead) =>
      if dead && s.quarantines[n].Owned? && Live(s', s.quarantines[n].token) {
        LiveShrinks(s, st, s.quarantines[n].token);
      }
    case Inspect(v) =>
      if v == StaleOwner && Live(s', s.canonical.value.token) {
        LiveShrinks(s, st, s.canonical.value.token);
      }
    case RenameAway(_) => NotLiveStays(s, st, s.procs[st.who].observed);
    case ReapRead(_) => NotLiveStays(s, st, s.procs[st.who].observed);
  }

  lemma WithdrawerPc(s: State, st: Step)
    requires Enabled(s, st) && PcsInv(s) && Withdraws(st.action)
    ensures PcInv(Next(s, st), st.who)
  {
    assert PcInv(s, st.who);
  }

  lemma ClaimantPc(s: State, st: Step)
    requires Enabled(s, st) && PcsInv(s) && !Judges(st.action) && !Withdraws(st.action)
    ensures PcInv(Next(s, st), st.who)
  {
    assert PcInv(s, st.who);
  }

  lemma ActorPc(s: State, st: Step)
    requires Enabled(s, st) && TrustedStep(s, st) && PcsInv(s)
    ensures PcInv(Next(s, st), st.who)
  {
    hide Next, PcInv, TrustedStep, PcsInv, Enabled;
    if Judges(st.action) {
      JudgePc(s, st);
    } else if Withdraws(st.action) {
      WithdrawerPc(s, st);
    } else {
      ClaimantPc(s, st);
    }
  }

  lemma PcsInvKept(s: State, st: Step)
    requires Enabled(s, st) && TrustedStep(s, st) && PcsInv(s)
    ensures PcsInv(Next(s, st))
  {
    var s' := Next(s, st);
    forall p | p in s'.procs ensures PcInv(s', p) {
      if p == st.who {
        ActorPc(s, st);
      } else {
        BystanderPc(s, st, p);
      }
    }
  }

  /** Only an entitled acquisition, or the creator of an empty directory, writes a record. */
  lemma EntitledStays(s: State, st: Step, p: Token)
    requires Enabled(s, st) && TrustedStep(s, st) && Inv(s)
    requires Entitled(s, p) && Entitled(Next(s, st), p)
    ensures Recorded(Next(s, st), p)
  {
    var s' := Next(s, st);
    assert PcInv(s, st.who);
    if s.canonical == Some(Owned(p)) {
      if st.action.RenameAway? {
        assert s'.quarantines[st.action.name] == Owned(p);
      } else if Entitled(s, st.who) {
        assert st.who == p;
      } else {
        assert s'.canonical == s.canonical;
      }
    } else {
      var n :| n in s.quarantines && s.quarantines[n] == Owned(p);
      assert Live(s, p);
      assert n in s'.quarantines && s'.quarantines[n] == Owned(p);
    }
  }

  lemma StakesInvKept(s: State, st: Step)
    requires Enabled(s, st) && TrustedStep(s, st) && Inv(s)
    ensures StakesInv(Next(s, st))
  {
    var s' := Next(s, st);
    forall p | Entitled(s', p) ensures Recorded(s', p) {
      if Entitled(s, p) {
        EntitledStays(s, st, p);
      }
    }
  }

  /** The only way to become entitled is to read one's own token in the canonical directory. */
  lemma BecomesEntitled(s: State, st: Step, p: Token)
    requires Enabled(s, st) && !Entitled(s, p) && Entitled(Next(s, st), p)
    ensures Unrivalled(s, p) && Next(s, st).canonical == s.canonical
    ensures forall q :: Entitled(Next(s, st), q) && q != p ==> Entitled(s, q)
  {
  }

  lemma ExclusionKept(s: State, st: Step)
    requires Enabled(s, st) && Inv(s)
    ensures OneEntitled(Next(s, st))
  {
    var s' := Next(s, st);
    forall p, q | Entitled(s', p) && Entitled(s', q) ensures p == q {
      if !Entitled(s, p) {
        BecomesEntitled(s, st, p);
      }
      if !Entitled(s, q) {
        BecomesEntitled(s, st, q);
      }
    }
  }

  lemma NoRivalsKept(s: State, st: Step)
    requires Enabled(s, st) && TrustedStep(s, st) && Inv(s)
    ensures NoRivals(Next(s, st))
  {
    var s' := Next(s, st);
    forall c, p | Unrivalled(s', c) ensures !Entitled(s', p) {
      assert Unrivalled(s, c) || s.quarantines.Keys == {};
      assert Entitled(s, p) ==> Recorded(s, p);
      if !Entitled(s, p) && Entitled(s', p) {
        BecomesEntitled(s, st, p);
      }
    }
  }

  lemma InvKept(s: State, st: Step)
    requires Enabled(s, st) && TrustedStep(s, st) && Inv(s)
    ensures Inv(Next(s, st))
  {
    PcsInvKept(s, st);
    StakesInvKept(s, st);
    ExclusionKept(s, st);
    NoRivalsKept(s, st);
  }

  lemma {:induction false} TrustedRunsKeepInv(h: History)
    requires Trusted(h)
    ensures Inv(Last(h))
  {
    match h
    case Begin(s) => InitInv(s);
    case Then(before, st) =>
      TrustedRunsKeepInv(before);
      assert Meets(LiveNeverStale, Last(before), st);
      assert Meets(RemovalUndisturbed, Last(before), st);
      assert Meets(CreationUndisturbed, Last(before), st);
      assert Meets(ReadsReport, Last(before), st);
      InvKept(Last(before), st);
  }

  /** Mutual exclusion after every trusted run, however many acquisitions take part. */
  lemma MutualExclusionHolds(h: History)
    requires Trusted(h)
    ensures MutualExclusion(Last(h))
  {
    TrustedRunsKeepInv(h);
    forall p, q | Owns(Last(h), p) && Owns(Last(h), q) ensures p == q {
      assert Entitled(Last(h), p) && Entitled(Last(h), q);
    }
  }

  /**
   An owner stays recorded until it releases, wherever its directory was moved to; while
   its directory sits in quarantine every other claimant's listing makes it withdraw; and
   no step of another acquisition gets that one past its first confirmation.
   */
  lemma OwnershipPersists(h: History, p: Token)
    requires Trusted(h) && Owns(Last(h), p)
    ensures Recorded(Last(h), p)
    ensures forall st: Step :: st.who != p && Trusted(Then(h, st)) ==>
              !Entitled(Last(Then(h, st)), st.who) && Owns(Last(Then(h, st)), p)
    ensures Last(h).canonical != Some(Owned(p)) ==>
              forall st: Step :: st.action.ListQuarantines? && Trusted(Then(h, st)) ==>
                Last(Then(h, st)).procs[st.who] == RemoveListing(Retry)
  {
    hide Inv, Owns, Entitled, Recorded, Meets;
    OwnerIsRecorded(h, p);
    forall st: Step | st.who != p && Trusted(Then(h, st))
      ensures !Entitled(Last(Then(h, st)), st.who) && Owns(Last(Then(h, st)), p)
    {
      OthersStayOut(h, p, st);
    }
    forall st: Step | Last(h).canonical != Some(Owned(p)) && st.action.ListQuarantines? && Trusted(Then(h, st))
      ensures Last(Then(h, st)).procs[st.who] == RemoveListing(Retry)
    {
      DisplacedOwnerIsSeen(h, p, st);
    }
  }

  lemma OwnerIsRecorded(h: History, p: Token)
    requires Trusted(h) && Owns(Last(h), p)
    ensures Entitled(Last(h), p) && Recorded(Last(h), p)
  {
    TrustedRunsKeepInv(h);
  }

  lemma OthersStayOut(h: History, p: Token, st: Step)
    requires Trusted(Then(h, st)) && Owns(Last(h), p) && st.who != p
    ensures !Entitled(Last(Then(h, st)), st.who) && Owns(Last(Then(h, st)), p)
  {
    var s' := Last(Then(h, st));
    assert s'.procs[p] == Last(h).procs[p];
    MutualEntitlement(Then(h, st), p, st.who);
  }

  lemma MutualEntitlement(h: History, p: Token, q: Token)
    requires Trusted(h) && Owns(Last(h), p) && q != p
    ensures !Entitled(Last(h), q)
  {
    OwnerIsRecorded(h, p);
    TrustedRunsKeepInv(h);
  }

  lemma DisplacedOwnerIsSeen(h: History, p: Token, st: Step)
    requires Trusted(Then(h, st)) && Owns(Last(h), p) && Last(h).canonical != Some(Owned(p))
    requires st.action.ListQuarantines?
    ensures Last(Then(h, st)).procs[st.who] == RemoveListing(Retry)
  {
    OwnerIsRecorded(h, p);
    assert Meets(ReadsReport, Last(h), st);
  }

  /**
   Nothing removes a directory it has no authority over: at the canonical path an
   acquisition removes only its own record, and a quarantine disappears only by its owner's
   hand, or because its owner is over, or because it never had one.
   */
  lemma RemovalsAreAuthorised(h: History, st: Step)
    requires Trusted(Then(h, st))
    ensures var s, s' := Last(h), Last(Then(h, st));
            s.canonical.Some? && s'.canonical.None? ==>
              || s.canonical == Some(Owned(st.who))
              || (exists n :: n in s'.quarantines && n !in s.used && s'.quarantines[n] == s.canonical.value)
    ensures var s, s' := Last(h), Last(Then(h, st));
            forall n :: n in s.quarantines && n !in s'.quarantines ==>
              s.quarantines[n] == Owned(st.who) || Dead(s, s.quarantines[n])
  {
    TrustedRunsKeepInv(h);
    var s := Last(h);
    assert PcInv(s, st.who);
    if st.action.RenameAway? && s.canonical.Some? {
      assert st.action.name in Next(s, st).quarantines;
    }
  }
}
