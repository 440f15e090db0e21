/**
 No assumption of the data-directory lock can be dropped: for each there is a run, step by step, that meets
 the other three and ends with two owners. The runs are put together from the stretches that the code goes
 through: an acquisition, a takeover, a release, a sweep.
 */
module LockWitnesses {
  import opened Prelude
  import opened LockProtocol

  /** Nobody but `p` is where a change of the canonical directory would need a waiver. */
  ghost predicate Calm(s: State, p: Token, w: set<Assumption>) {
    forall q :: q in s.procs && q != p ==>
      && (s.procs[q].Created? ==> CreationUndisturbed in w)
      && (s.procs[q].RemovingCanonical? ==> RemovalUndisturbed in w)
  }

  /** One more step of a run that may waive `w`. */
  ghost function Take(h: History, st: Step, w: set<Assumption>): (h': History)
    requires TrustedBut(h, w) && Enabled(Last(h), st)
    requires forall a :: a !in w ==> Meets(a, Last(h), st)
    ensures TrustedBut(h', w) && Last(h') == Next(Last(h), st)
  {
    Then(h, st)
  }

  /** With nothing in quarantine, an acquisition is soon about to create the lock directory. */
  lemma Approach(h: History, p: Token, w: set<Assumption>) returns (h': History)
    requires TrustedBut(h, w) && p in Last(h).procs && Last(h).procs[p] == Start && Last(h).quarantines == map[]
    ensures TrustedBut(h', w) && Last(h') == Goto(Last(h), p, Creating)
  {
    h' := Take(h, Step(p, ListForSweep(false)), w);
    h' := Take(h', Step(p, SweepDone), w);
    assert Last(h').procs == Last(h).procs[p := Creating];
  }

  /** An acquisition alone with a free lock and no quarantine takes it. */
  lemma Acquire(h: History, p: Token, w: set<Assumption>) returns (h': History)
    requires TrustedBut(h, w) && p in Last(h).procs && Last(h).procs[p] == Start
    requires Last(h).canonical == None && Last(h).quarantines == map[] && Calm(Last(h), p, w)
    ensures TrustedBut(h', w)
    ensures Last(h') == Goto(Last(h).(canonical := Some(Owned(p))), p, Held(Idle))
  {
    h' := CreateOnly(h, p, w);
    h' := Claim(h', p, w);
    assert Last(h').procs == Last(h).procs[p := Held(Idle)];
  }

  lemma Confirm(h: History, p: Token, w: set<Assumption>) returns (h': History)
    requires TrustedBut(h, w) && p in Last(h).procs && (Last(h).procs[p].Written? || Last(h).procs[p].Promoted?)
    requires Last(h).canonical == Some(Owned(p)) && Last(h).quarantines == map[]
    ensures TrustedBut(h', w)
    ensures Last(h') == Goto(Last(h), p, if Last(h).procs[p].Written? then Confirmed else Held(Idle))
  {
    h' := Take(h, Step(p, ListQuarantines(false)), w);
    h' := Take(h', Step(p, ReadCanonical(false)), w);
    assert Last(h').procs == Last(h).procs[p := if Last(h).procs[p].Written? then Confirmed else Held(Idle)];
  }

  /** An acquisition that finds the lock taken by no live owner decides to reap it. */
  lemma Observe(h: History, p: Token, w: set<Assumption>) returns (h': History)
    requires TrustedBut(h, w) && p in Last(h).procs && Last(h).procs[p] == Start
    requires Last(h).canonical.Some? && Last(h).quarantines == map[] && Dead(Last(h), Last(h).canonical.value)
    ensures TrustedBut(h', w)
    ensures var o := Last(h).canonical.value;
            Last(h') == Goto(Last(h), p, Reaping(if o.Owned? then Some(o.token) else None))
  {
    var o := Last(h).canonical.value;
    h' := Approach(h, p, w);
    h' := Take(h', Step(p, Mkdir), w);
    h' := Take(h', Step(p, Inspect(if o.Owned? then StaleOwner else StaleInvalid)), w);
    assert Last(h').procs == Last(h).procs[p := Reaping(if o.Owned? then Some(o.token) else None)];
  }

  /** The takeover of a directory that still carries the observed identity. */
  lemma Reap(h: History, p: Token, n: Name, w: set<Assumption>) returns (h': History)
    requires TrustedBut(h, w) && p in Last(h).procs && Last(h).procs[p].Reaping? && n !in Last(h).used
    requires Last(h).canonical == Some(if Last(h).procs[p].observed.None? then NoRecord
                                       else Owned(Last(h).procs[p].observed.value))
    requires Calm(Last(h), p, w)
    requires Last(h).quarantines == map[]
    ensures TrustedBut(h', w)
    ensures Last(h') == State(None, map[], Last(h).used + {n}, Last(h).procs[p := Start])
  {
    h' := Take(h, Step(p, RenameAway(n)), w);
    h' := Take(h', Step(p, ReapRead(false)), w);
    h' := Take(h', Step(p, ReapRemove), w);
    assert Last(h').quarantines == map[];
    assert Last(h').procs == Last(h).procs[p := Start];
  }

  /** Acquisitions 1 and 2 both saw a dead lock; 2 has cleared it, 1 has yet to act on it. */
  lemma StaleObservation(o: Owner, procs: map<Token, Pc>, w: set<Assumption>) returns (h: History)
    requires 1 in procs && 2 in procs && 9 !in procs && (o == NoRecord || o == Owned(9))
    requires forall p :: p in procs ==> procs[p] == Start
    ensures TrustedBut(h, w)
    ensures Last(h) == State(None, map[], {0}, procs[1 := Reaping(if o.Owned? then Some(9) else None)])
  {
    hide Next, Enabled, Meets;
    var s0 := State(Some(o), map[], {}, procs);
    assert Init(s0);
    h := Begin(s0);
    h := Observe(h, 1, w);
    h := Observe(h, 2, w);
    h := Reap(h, 2, 0, w);
    assert procs[1 := Last(h).procs[1]] == Last(h).procs;
  }

  /** Acquisition 1 has observed a dead owner whose place acquisition 2 has since taken. */
  lemma AbaReaper(w: set<Assumption>) returns (h: History)
    ensures TrustedBut(h, w)
    ensures Last(h) == State(Some(Owned(2)), map[], {0},
                             map[1 := Reaping(Some(9)), 2 := Held(Idle), 3 := Start, 4 := Start])
  {
    hide Next, Enabled, Meets;
    h := StaleObservation(Owned(9), map[1 := Start, 2 := Start, 3 := Start, 4 := Start], w);
    h := Acquire(h, 2, w);
  }

  /** A reaper that comes too late moves a live owner's directory aside and leaves it there. */
  lemma Displace(h: History, r: Token, n: Name, p: Token, w: set<Assumption>) returns (h': History)
    requires TrustedBut(h, w) && r in Last(h).procs && n !in Last(h).used && Calm(Last(h), r, w)
    requires Last(h).procs[r].Reaping? && Last(h).procs[r].observed == Some(9) && p != 9
    requires Last(h).canonical == Some(Owned(p)) && Last(h).quarantines == map[]
    ensures TrustedBut(h', w)
    ensures Last(h') == State(None, map[n := Owned(p)], Last(h).used + {n}, Last(h).procs[r := Start])
  {
    h' := Take(h, Step(r, RenameAway(n)), w);
    h' := Take(h', Step(r, ReapRead(false)), w);
    assert Last(h').procs == Last(h).procs[r := Start];
  }

  lemma HeartbeatStops(h: History, p: Token, w: set<Assumption>) returns (h': History)
    requires TrustedBut(h, w) && p in Last(h).procs && Last(h).procs[p] == Held(Idle)
    requires Last(h).canonical == None
    ensures TrustedBut(h', w) && Last(h') == Goto(Last(h), p, Held(Cleared))
  {
    h' := Take(h, Step(p, BeatRead(false)), w);
  }

  lemma FinishRemoval(h: History, p: Token, w: set<Assumption>) returns (h': History)
    requires TrustedBut(h, w) && p in Last(h).procs && Last(h).procs[p] == RemovingCanonical({}, Finish)
    requires Calm(Last(h), p, w)
    ensures TrustedBut(h', w)
    ensures Last(h') == Goto(Last(h).(canonical := None), p, RemoveScanning({}, Finish))
  {
    h' := Take(h, Step(p, RemoveCanonical), w);
  }

  lemma SweepOne(h: History, x: Token, n: Name, o: Owner, w: set<Assumption>) returns (h': History)
    requires TrustedBut(h, w) && x in Last(h).procs && Last(h).procs[x] == Start
    requires Last(h).quarantines == map[n := o]
    requires LiveNeverStale in w || Dead(Last(h), o)
    ensures TrustedBut(h', w)
    ensures Last(h') == Goto(Last(h).(quarantines := map[]), x, Sweeping({}))
  {
    h' := Take(h, Step(x, ListForSweep(false)), w);
    assert Last(h').procs[x].todo == {n};
    h' := Take(h', Step(x, SweepRead(n, true)), w);
    h' := Take(h', Step(x, SweepRemove), w);
    assert Last(h').quarantines == map[];
    assert {n} - {n} == {};
    assert Last(h').procs == Last(h).procs[x := Sweeping({})];
  }

  /** The late reaper of AbaReaper has moved the directory of the live owner 2 aside. */
  lemma OwnerDisplaced(w: set<Assumption>) returns (h: History)
    ensures TrustedBut(h, w)
    ensures Last(h) == State(None, map[1 := Owned(2)], {0, 1},
                             map[1 := Start, 2 := Held(Idle), 3 := Start, 4 := Start])
  {
    hide Next, Enabled, Meets;
    h := AbaReaper(w);
    h := Displace(h, 1, 1, 2, w);
  }

  /** The owner's heartbeat stopped in quarantine; once its record is swept, 3 takes the lock. */
  lemma WithoutA1() returns (h: History)
    ensures TrustedBut(h, {LiveNeverStale}) && Owns(Last(h), 2) && Owns(Last(h), 3)
  {
    hide Next, Enabled, Meets;
    var w := {LiveNeverStale};
    h := OwnerDisplaced(w);
    h := HeartbeatStops(h, 2, w);
    h := SweepOne(h, 1, 1, Owned(2), w);
    h := Acquire(h, 3, w);
  }

  lemma StopBeating(h: History, p: Token, w: set<Assumption>) returns (h': History)
    requires TrustedBut(h, w) && p in Last(h).procs && Last(h).procs[p] == Held(Idle)
    ensures TrustedBut(h', w)
    ensures Last(h') == Goto(Last(h), p, RemoveListing(Finish))
  {
    h' := Take(h, Step(p, BeginRelease), w);
    h' := Take(h', Step(p, HeartbeatStopped), w);
    assert Last(h').procs == Last(h).procs[p := RemoveListing(Finish)];
  }

  lemma StartRelease(h: History, p: Token, w: set<Assumption>) returns (h': History)
    requires TrustedBut(h, w) && p in Last(h).procs && Last(h).procs[p] == Held(Idle)
    requires Last(h).canonical == Some(Owned(p)) && Last(h).quarantines == map[]
    ensures TrustedBut(h', w)
    ensures Last(h') == Goto(Last(h), p, RemovingCanonical({}, Finish))
  {
    h' := StopBeating(h, p, w);
    assert Listing(Last(h'), false) == {};
    h' := Take(h', Step(p, RemoveList(false)), w);
    h' := Take(h', Step(p, RemoveRead(false)), w);
    assert Last(h').procs == Last(h).procs[p := RemovingCanonical({}, Finish)];
  }

  lemma ReleaseDisplaced(w: set<Assumption>) returns (h: History)
    requires RemovalUndisturbed in w
    ensures TrustedBut(h, w)
    ensures Last(h) == State(None, map[1 := Owned(2)], {0, 1},
                             map[1 := Start, 2 := RemovingCanonical({}, Finish), 3 := Start, 4 := Start])
  {
    hide Next, Enabled, Meets;
    h := AbaReaper(w);
    h := StartRelease(h, 2, w);
    h := Displace(h, 1, 1, 2, w);
  }

  /** Owner 2 has read its own token and is about to remove the canonical directory of 1. */
  lemma ReleaseOvertaken(w: set<Assumption>) returns (h: History)
    requires RemovalUndisturbed in w
    ensures TrustedBut(h, w)
    ensures Last(h) == State(Some(Owned(1)), map[], {0, 1},
                             map[1 := Held(Idle), 2 := RemovingCanonical({}, Finish), 3 := Sweeping({}), 4 := Start])
  {
    hide Next, Enabled, Meets;
    h := ReleaseDisplaced(w);
    assert Dead(Last(h), Owned(2));
    h := SweepOne(h, 3, 1, Owned(2), w);
    h := Acquire(h, 1, w);
  }

  /** The directory a release is about to remove is replaced by a new owner's. */
  lemma WithoutA2() returns (h: History)
    ensures TrustedBut(h, {RemovalUndisturbed}) && Owns(Last(h), 1) && Owns(Last(h), 4)
  {
    hide Next, Enabled, Meets;
    var w := {RemovalUndisturbed};
    h := ReleaseOvertaken(w);
    h := FinishRemoval(h, 2, w);
    h := Acquire(h, 4, w);
  }

  lemma CreateOnly(h: History, p: Token, w: set<Assumption>) returns (h': History)
    requires TrustedBut(h, w) && p in Last(h).procs && Last(h).procs[p] == Start && Calm(Last(h), p, w)
    requires Last(h).canonical == None && Last(h).quarantines == map[]
    ensures TrustedBut(h', w)
    ensures Last(h') == Goto(Last(h).(canonical := Some(NoRecord)), p, Created)
  {
    h' := Approach(h, p, w);
    h' := Take(h', Step(p, Mkdir), w);
    assert Last(h').procs == Last(h).procs[p := Created];
  }

  /** From its first record on, with nothing in quarantine, a claimant goes through. */
  lemma Claim(h: History, p: Token, w: set<Assumption>) returns (h': History)
    requires TrustedBut(h, w) && p in Last(h).procs && Last(h).procs[p] == Created && Calm(Last(h), p, w)
    requires Last(h).canonical.Some? && Last(h).quarantines == map[]
    ensures TrustedBut(h', w)
    ensures Last(h') == Goto(Last(h).(canonical := Some(Owned(p))), p, Held(Idle))
  {
    h' := Take(h, Step(p, WriteFirst), w);
    h' := Confirm(h', p, w);
    h' := Take(h', Step(p, Promote), w);
    h' := Confirm(h', p, w);
    assert Last(h').procs == Last(h).procs[p := Held(Idle)];
  }

  /** A first record lands in the directory of the acquisition that took over meanwhile. */
  lemma WithoutA3() returns (h: History)
    ensures TrustedBut(h, {CreationUndisturbed}) && Owns(Last(h), 2) && Owns(Last(h), 3)
  {
    hide Next, Enabled, Meets;
    var w := {CreationUndisturbed};
    h := CreatorDisplaced(w);
    h := Acquire(h, 2, w);
    h := Claim(h, 3, w);
  }

  /** Acquisition 3 has created a directory that a reaper removed before its first record. */
  lemma CreatorDisplaced(w: set<Assumption>) returns (h: History)
    requires CreationUndisturbed in w
    ensures TrustedBut(h, w)
    ensures Last(h) == State(None, map[], {0, 1}, map[1 := Start, 2 := Start, 3 := Created])
  {
    hide Next, Enabled, Meets;
    h := StaleObservation(NoRecord, map[1 := Start, 2 := Start, 3 := Start], w);
    h := CreateOnly(h, 3, w);
    h := Reap(h, 1, 1, w);
  }

  /** A confirmation whose listing fails passes whatever is in quarantine. */
  lemma ConfirmBlind(h: History, p: Token, w: set<Assumption>) returns (h': History)
    requires TrustedBut(h, w) && ReadsReport in w && p in Last(h).procs
    requires Last(h).procs[p].Written? || Last(h).procs[p].Promoted?
    requires Last(h).canonical == Some(Owned(p))
    ensures TrustedBut(h', w)
    ensures Last(h') == Goto(Last(h), p, if Last(h).procs[p].Written? then Confirmed else Held(Idle))
  {
    h' := Take(h, Step(p, ListQuarantines(true)), w);
    h' := Take(h', Step(p, ReadCanonical(false)), w);
    assert Last(h').procs == Last(h).procs[p := if Last(h).procs[p].Written? then Confirmed else Held(Idle)];
  }

  lemma CreateBlind(h: History, p: Token, w: set<Assumption>) returns (h': History)
    requires TrustedBut(h, w) && p in Last(h).procs && Last(h).procs[p] == Start
    requires Last(h).canonical == None && Calm(Last(h), p, w)
    ensures TrustedBut(h', w)
    ensures Last(h') == Goto(Last(h).(canonical := Some(Owned(p))), p, Written)
  {
    h' := Take(h, Step(p, ListForSweep(true)), w);
    h' := Take(h', Step(p, SweepDone), w);
    h' := Take(h', Step(p, Mkdir), w);
    h' := Take(h', Step(p, WriteFirst), w);
    assert Last(h').procs == Last(h).procs[p := Written];
  }

  lemma AcquireBlind(h: History, p: Token, w: set<Assumption>) returns (h': History)
    requires TrustedBut(h, w) && ReadsReport in w && p in Last(h).procs && Last(h).procs[p] == Start
    requires Last(h).canonical == None && Calm(Last(h), p, w)
    ensures TrustedBut(h', w)
    ensures Last(h') == Goto(Last(h).(canonical := Some(Owned(p))), p, Held(Idle))
  {
    h' := CreateBlind(h, p, w);
    h' := ConfirmBlind(h', p, w);
    h' := Take(h', Step(p, Promote), w);
    h' := ConfirmBlind(h', p, w);
    assert Last(h').procs == Last(h).procs[p := Held(Idle)];
  }

  /** A listing that fails hides the quarantined owner from both confirmations. */
  lemma WithoutA4() returns (h: History)
    ensures TrustedBut(h, {ReadsReport}) && Owns(Last(h), 2) && Owns(Last(h), 3)
  {
    hide Next, Enabled, Meets;
    var w := {ReadsReport};
    h := OwnerDisplaced(w);
    h := AcquireBlind(h, 3, w);
  }

  /** Each assumption is needed: waiving it alone admits a run with two owners. */
  lemma EveryAssumptionIsNeeded(a: Assumption)
    ensures exists h :: TrustedBut(h, {a}) && !MutualExclusion(Last(h))
  {
    var h;
    match a {
      case LiveNeverStale => h := WithoutA1();
      case RemovalUndisturbed => h := WithoutA2();
      case CreationUndisturbed => h := WithoutA3();
      case ReadsReport => h := WithoutA4();
    }
    assert TrustedBut(h, {a}) && !MutualExclusion(Last(h));
  }
}
