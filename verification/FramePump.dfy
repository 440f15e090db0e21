/**
 What the host driver hears: which frames a stream of output retains, which waiter is told which frame, and at
 which line and for which reason the driver fails, said of the stream and not of the loop that reads it.
 */
module FramePump {
  import opened Prelude
  import opened Strings
  import opened CanonicalJson
  import opened ChildHost
  import Layout

  // ----- one frame

  /** The predicate asked with a ticket, for any number. */
  ghost function WantOf(h: Host, t: Ticket, f: Json): Verdict {
    if t < |h.asked| then h.asked[t](f) else NoMatch
  }

  /** The ticket is among these waiters', and its predicate matches. */
  ghost predicate Gets(h: Host, ws: seq<Waiter>, t: Ticket, f: Json) {
    HasTicket(ws, t) && WantOf(h, t, f) == Match
  }

  ghost predicate ThrowsOn(h: Host, ws: seq<Waiter>, t: Ticket, f: Json) {
    HasTicket(ws, t) && WantOf(h, t, f) == Throws
  }

  lemma HasTicketSnoc(ws: seq<Waiter>, i: nat, t: Ticket)
    requires i < |ws|
    ensures HasTicket(ws[..i + 1], t) <==> HasTicket(ws[..i], t) || t == ws[i].ticket
  {
    if HasTicket(ws[..i], t) {
      var j :| 0 <= j < i && ws[..i][j].ticket == t;
      assert ws[..i + 1][j].ticket == t;
    }
    if t == ws[i].ticket {
      assert ws[..i + 1][i].ticket == t;
    }
    if HasTicket(ws[..i + 1], t) && t != ws[i].ticket {
      var j :| 0 <= j < i + 1 && ws[..i + 1][j].ticket == t;
      assert ws[..i][j].ticket == t;
    }
  }

  /** What stands at the last of the first `i` waiters: its predicate, and that tickets before it are lower. */
  lemma AtWaiter(h: Host, i: nat, f: Json)
    requires Settled(h) && 0 < i <= |h.waiters|
    ensures var u, front, ws := h.waiters[i - 1].ticket, h.waiters[..i - 1], h.waiters[..i];
            && u < |h.told| && WantOf(h, u, f) == h.waiters[i - 1].wants(f) && Waiting(h, u)
            && (forall t: Ticket :: HasTicket(ws, t) <==> HasTicket(front, t) || t == u)
            && (forall t: Ticket :: HasTicket(front, t) ==> t < u)
  {
    var u, front, ws := h.waiters[i - 1].ticket, h.waiters[..i - 1], h.waiters[..i];
    forall t: Ticket ensures HasTicket(ws, t) <==> HasTicket(front, t) || t == u {
      HasTicketSnoc(h.waiters, i - 1, t);
    }
    forall t: Ticket | HasTicket(front, t) ensures t < u {
      var j :| 0 <= j < i - 1 && front[j].ticket == t;
      assert h.waiters[j].ticket < h.waiters[i - 1].ticket;
    }
  }

  /** The waiter next in turn, taken off the list and told the frame. */
  ghost function Served(h: Host, f: Json, i: nat): Host
    requires i < |h.waiters|
  {
    Tell(h.(waiters := Without(h.waiters, i)), h.waiters[i].ticket, Resolved(f))
  }

  lemma ServedKeeps(h: Host, f: Json, i: nat)
    requires Settled(h) && h.fatal.None? && i < |h.waiters| && f in h.frames && h.waiters[i].wants(f) == Match
    ensures var r, u := Served(h, f, i), h.waiters[i].ticket;
            && Settled(r) && r == h.(waiters := r.waiters, told := r.told) && |r.told| == |h.told| && u < |h.told|
            && i <= |r.waiters| && r.waiters[..i] == h.waiters[..i]
            && (forall t: Ticket :: 0 <= t < |h.told| ==>
                  r.told[t] == if t == u then h.told[t] + [Resolved(f)] else h.told[t])
            && (forall t: Ticket :: Waiting(r, t) <==> Waiting(h, t) && t != u)
  {
    var r := Served(h, f, i);
    RemoveAndTell(h, i, Resolved(f));
    forall t: Ticket ensures Waiting(r, t) <==> Waiting(h, t) && t != h.waiters[i].ticket {
      WaitingWithout(h, i, r, t);
    }
  }

  /** A frame that no predicate throws on goes to every waiter that wants it, and the others keep waiting. */
  lemma {:induction false} WakeHears(h: Host, f: Json, i: nat)
    requires Settled(h) && h.fatal.None? && i <= |h.waiters| && f in h.frames
    requires forall t: Ticket :: !ThrowsOn(h, h.waiters[..i], t, f)
    ensures var r, ws := Wake(h, f, i), h.waiters[..i];
            && r == h.(waiters := r.waiters, told := r.told) && |r.told| == |h.told| && Settled(r)
            && (forall t: Ticket :: Waiting(r, t) <==> Waiting(h, t) && !Gets(h, ws, t, f))
            && (forall t: Ticket :: 0 <= t < |h.told| ==>
                  r.told[t] == if Gets(h, ws, t, f) then h.told[t] + [Resolved(f)] else h.told[t])
    decreases i
  {
    hide Settled, Waiting, HasTicket, Tell, Served;
    var ws := h.waiters[..i];
    if i == 0 {
      NobodyThere();
    } else {
      var front, u := h.waiters[..i - 1], h.waiters[i - 1].ticket;
      AtWaiter(h, i, f);
      assert !ThrowsOn(h, ws, u, f);
      forall t: Ticket ensures !ThrowsOn(h, front, t, f) {
        assert !ThrowsOn(h, ws, t, f);
      }
      if h.waiters[i - 1].wants(f) == NoMatch {
        WakeHears(h, f, i - 1);
      } else {
        var next := Served(h, f, i - 1);
        ServedKeeps(h, f, i - 1);
        forall t: Ticket ensures !ThrowsOn(next, front, t, f) {
          assert !ThrowsOn(h, front, t, f);
        }
        WakeHears(next, f, i - 1);
        WakeServes(h, f, i);
        var r := Wake(h, f, i);
        forall t: Ticket ensures Gets(h, ws, t, f) <==> Gets(next, front, t, f) || t == u {
        }
      }
    }
  }

  lemma NobodyThere()
    ensures forall t: Ticket :: !HasTicket([], t)
  {
  }

  lemma WakeServes(h: Host, f: Json, i: nat)
    requires 0 < i <= |h.waiters| && h.waiters[i - 1].wants(f) == Match
    ensures Wake(h, f, i) == Wake(Served(h, f, i - 1), f, i - 1)
  {
  }

  /** Failing tells everyone who waits the reason, and nobody else anything. */
  lemma FailAllTells(h: Host, e: Failure)
    requires Settled(h) && h.fatal.None?
    ensures var r := FailAll(h, e);
            && r == h.(fatal := Some(e), buffer := [], waiters := [], told := r.told) && |r.told| == |h.told|
            && forall t: Ticket :: 0 <= t < |h.told| ==>
                 r.told[t] == if Waiting(h, t) then h.told[t] + [Rejected(e)] else h.told[t]
  {
    RejectAllTells(h.(fatal := Some(e), buffer := [], waiters := []), h.waiters, e);
  }

  /** A waiter that comes after this one throws on the frame. */
  ghost predicate ThrownBefore(h: Host, ws: seq<Waiter>, t: Ticket, f: Json) {
    exists u: Ticket :: t < u && ThrowsOn(h, ws, u, f)
  }

  /** Who is still told the frame when a predicate throws on it: those whose turn came before that. */
  ghost function LastWord(h: Host, ws: seq<Waiter>, t: Ticket, f: Json): Outcome {
    if Gets(h, ws, t, f) && !ThrownBefore(h, ws, t, f) then Resolved(f) else Rejected(PredicateThrew)
  }

  /** A frame that some predicate throws on goes to the waiters that come after the last thrower; all others fail. */
  lemma {:induction false} WakeThrows(h: Host, f: Json, i: nat, u: Ticket)
    requires Settled(h) && h.fatal.None? && i <= |h.waiters| && f in h.frames && ThrowsOn(h, h.waiters[..i], u, f)
    ensures var r, ws := Wake(h, f, i), h.waiters[..i];
            && r == h.(fatal := Some(PredicateThrew), buffer := [], waiters := [], told := r.told)
            && |r.told| == |h.told|
            && forall t: Ticket :: 0 <= t < |h.told| ==>
                             r.told[t] == if Waiting(h, t) then h.told[t] + [LastWord(h, ws, t, f)] else h.told[t]
    decreases i
  {
    hide Settled, Waiting, HasTicket, Tell, FailAll, Served, LastWord;
    var ws := h.waiters[..i];
    if i == 0 {
      NobodyThere();
    } else {
      var front, last := h.waiters[..i - 1], h.waiters[i - 1].ticket;
      AtWaiter(h, i, f);
      match h.waiters[i - 1].wants(f)
      case Throws =>
        FailAllTells(h, PredicateThrew);
        forall t: Ticket ensures LastWord(h, ws, t, f) == Rejected(PredicateThrew) {
          ThrownLast(h, ws, last, t, f);
        }
      case NoMatch =>
        WakeThrows(h, f, i - 1, u);
        forall t: Ticket ensures LastWord(h, ws, t, f) == LastWord(h, front, t, f) {
          SameLastWord(h, h, ws, front, last, t, f);
        }
      case Match =>
        var next := Served(h, f, i - 1);
        ServedKeeps(h, f, i - 1);
        WakeThrows(next, f, i - 1, u);
        WakeServes(h, f, i);
        forall t: Ticket | t != last ensures LastWord(h, ws, t, f) == LastWord(next, front, t, f) {
          SameLastWord(h, next, ws, front, last, t, f);
        }
        ServedFirst(h, ws, last, f);
    }
  }

  lemma ThrownLast(h: Host, ws: seq<Waiter>, last: Ticket, t: Ticket, f: Json)
    requires ThrowsOn(h, ws, last, f) && forall v: Ticket :: HasTicket(ws, v) ==> v <= last
    ensures LastWord(h, ws, t, f) == Rejected(PredicateThrew)
  {
    hide HasTicket;
    if Gets(h, ws, t, f) {
      assert t < last;
    }
  }

  lemma ServedFirst(h: Host, ws: seq<Waiter>, last: Ticket, f: Json)
    requires Gets(h, ws, last, f) && forall v: Ticket :: HasTicket(ws, v) ==> v <= last
    ensures LastWord(h, ws, last, f) == Resolved(f)
  {
    hide HasTicket;
  }

  /** A waiter that does not throw, taken off or passed over, changes nothing for those before it. */
  lemma SameLastWord(
      h: Host, next: Host, ws: seq<Waiter>, front: seq<Waiter>, last: Ticket, t: Ticket, f: Json)
    requires next.asked == h.asked && WantOf(h, last, f) != Throws
    requires forall v: Ticket :: HasTicket(ws, v) <==> HasTicket(front, v) || v == last
    requires t != last || WantOf(h, t, f) != Match
    ensures LastWord(h, ws, t, f) == LastWord(next, front, t, f)
  {
    hide HasTicket;
    assert forall v: Ticket :: ThrowsOn(h, ws, v, f) <==> ThrowsOn(next, front, v, f);
    assert Gets(h, ws, t, f) <==> Gets(next, front, t, f);
  }

  // ----- many lines

  /** The predicate of this ticket matches none of these frames. */
  ghost predicate Silent(h: Host, t: Ticket, fs: seq<Json>) {
    forall k :: 0 <= k < |fs| ==> WantOf(h, t, fs[k]) == NoMatch
  }

  /** The first of these frames that concerns this ticket is the `k`-th, and it matches. */
  ghost predicate FirstMatch(h: Host, t: Ticket, fs: seq<Json>, k: nat) {
    k < |fs| && Silent(h, t, fs[..k]) && WantOf(h, t, fs[k]) == Match
  }

  /** The ticket was told the first of these frames that matches. */
  ghost predicate ToldFirst(h: Host, r: Host, t: Ticket, fs: seq<Json>)
    requires t < |r.told|
  {
    exists k: nat :: FirstMatch(h, t, fs, k) && r.told[t] == [Resolved(fs[k])]
  }

  /** These frames were retained, and every waiter was told the first that matches or is waiting on. */
  ghost predicate Heard(h: Host, r: Host, fs: seq<Json>) {
    && r.fatal.None? && r.frames == h.frames + fs && |r.told| == |h.told|
    && forall t: Ticket :: t < |h.told| ==>
                             if !Waiting(h, t) then r.told[t] == h.told[t] && !Waiting(r, t)
                             else if Silent(h, t, fs) then r.told[t] == [] && Waiting(r, t)
                             else ToldFirst(h, r, t, fs) && !Waiting(r, t)
  }

  ghost function FrameAt(wire: Wire, line: Text): Json {
    if wire.parse(line).Some? then wire.parse(line).value else JNull
  }

  ghost function FramesOf(wire: Wire, ts: seq<Text>): seq<Json> {
    seq(|ts|, k requires 0 <= k < |ts| => FrameAt(wire, ts[k]))
  }

  /** The line is JSON, there is room for its frame, and no predicate still waiting throws on it. */
  ghost predicate GoodLine(wire: Wire, h: Host, ts: seq<Text>, k: nat)
    requires k < |ts|
  {
    && wire.parse(ts[k]).Some? && |h.frames| + k < wire.cap
    && forall t: Ticket :: Waiting(h, t) && Silent(h, t, FramesOf(wire, ts[..k])) ==>
                             WantOf(h, t, FrameAt(wire, ts[k])) != Throws
  }

  ghost predicate NoBlanks(wire: Wire, ts: seq<Text>) {
    forall k :: 0 <= k < |ts| ==> !wire.blank(ts[k])
  }

  lemma HeardNothing(h: Host)
    requires Settled(h) && h.fatal.None?
    ensures Heard(h, h, [])
  {
  }

  /** One line that is good. */
  lemma HearsOne(wire: Wire, h: Host, line: Text)
    requires Settled(h) && h.fatal.None? && !wire.blank(line) && wire.parse(line).Some? && |h.frames| < wire.cap
    requires forall t: Ticket :: Waiting(h, t) ==> WantOf(h, t, FrameAt(wire, line)) != Throws
    ensures var r := TakeLine(wire, h, line);
            Heard(h, r, [FrameAt(wire, line)]) && Settled(r) && r.asked == h.asked
  {
    hide Waiting, Wake, HasTicket;
    var f := FrameAt(wire, line);
    var h' := h.(frames := h.frames + [f]);
    var ws := h'.waiters[..|h'.waiters|];
    assert ws == h.waiters;
    MoreFramesSettled(h, f);
    WaitingIs(h);
    WaitingIs(h');
    forall t: Ticket ensures !ThrowsOn(h', ws, t, f) {
    }
    WakeHears(h', f, |h'.waiters|);
    var r := TakeLine(wire, h, line);
    forall t: Ticket | t < |h.told|
      ensures if !Waiting(h, t) then r.told[t] == h.told[t] && !Waiting(r, t)
              else if Silent(h, t, [f]) then r.told[t] == [] && Waiting(r, t)
              else ToldFirst(h, r, t, [f]) && !Waiting(r, t)
    {
      ToldWhileWaiting(h, t);
      assert Silent(h, t, [f]) <==> WantOf(h, t, f) == NoMatch by {
        assert [f][0] == f;
      }
      if Waiting(h, t) && WantOf(h, t, f) == Match {
        assert FirstMatch(h, t, [f], 0);
      }
    }
  }

  lemma MoreFramesSettled(h: Host, f: Json)
    requires Settled(h) && h.fatal.None?
    ensures Settled(h.(frames := h.frames + [f]))
  {
    MoreFrames(h, f);
  }

  lemma WaitingIs(h: Host)
    ensures forall t: Ticket :: Waiting(h, t) <==> HasTicket(h.waiters, t)
  {
  }

  lemma ToldWhileWaiting(h: Host, t: Ticket)
    requires Settled(h) && t < |h.told|
    ensures Waiting(h, t) ==> h.told[t] == []
  {
  }

  lemma SilentSnoc(h: Host, t: Ticket, fs: seq<Json>, f: Json)
    ensures Silent(h, t, fs + [f]) <==> Silent(h, t, fs) && WantOf(h, t, f) == NoMatch
  {
    var all := fs + [f];
    if Silent(h, t, all) {
      assert WantOf(h, t, all[|fs|]) == NoMatch;
      forall k | 0 <= k < |fs| ensures WantOf(h, t, fs[k]) == NoMatch {
        assert WantOf(h, t, all[k]) == NoMatch;
      }
    }
  }

  lemma FirstMatchGrows(h: Host, t: Ticket, fs: seq<Json>, f: Json, k: nat)
    requires FirstMatch(h, t, fs, k)
    ensures FirstMatch(h, t, fs + [f], k) && (fs + [f])[k] == fs[k] && !Silent(h, t, fs + [f])
  {
    assert (fs + [f])[..k] == fs[..k];
    assert WantOf(h, t, (fs + [f])[k]) != NoMatch;
  }

  lemma HeardOneMore(h: Host, m: Host, r: Host, fs: seq<Json>, f: Json)
    requires Heard(h, m, fs) && Heard(m, r, [f]) && m.asked == h.asked
    ensures Heard(h, r, fs + [f])
  {
    hide Waiting, Silent;
    assert h.frames + fs + [f] == h.frames + (fs + [f]);
    forall t: Ticket | t < |h.told|
      ensures if !Waiting(h, t) then r.told[t] == h.told[t] && !Waiting(r, t)
              else if Silent(h, t, fs + [f]) then r.told[t] == [] && Waiting(r, t)
              else ToldFirst(h, r, t, fs + [f]) && !Waiting(r, t)
    {
      SilentSnoc(h, t, fs, f);
      SilentOne(h, m, t, f);
      if Waiting(h, t) && !Silent(h, t, fs) {
        var k: nat :| FirstMatch(h, t, fs, k) && m.told[t] == [Resolved(fs[k])];
        FirstMatchGrows(h, t, fs, f, k);
      } else if Waiting(h, t) && !Silent(h, t, fs + [f]) {
        var k: nat :| FirstMatch(m, t, [f], k) && r.told[t] == [Resolved([f][k])];
        MatchAtEnd(h, m, t, fs, f, k);
      }
    }
  }

  lemma SilentOne(h: Host, m: Host, t: Ticket, f: Json)
    requires m.asked == h.asked
    ensures Silent(m, t, [f]) <==> WantOf(h, t, f) == NoMatch
  {
    assert [f][0] == f;
  }

  lemma MatchAtEnd(h: Host, m: Host, t: Ticket, fs: seq<Json>, f: Json, k: nat)
    requires m.asked == h.asked && Silent(h, t, fs) && FirstMatch(m, t, [f], k)
    ensures k == 0 && FirstMatch(h, t, fs + [f], |fs|) && (fs + [f])[|fs|] == f
  {
    assert (fs + [f])[..|fs|] == fs;
  }

  lemma FramesOfSnoc(wire: Wire, ts: seq<Text>, n: nat)
    requires n < |ts|
    ensures FramesOf(wire, ts[..n + 1]) == FramesOf(wire, ts[..n]) + [FrameAt(wire, ts[n])]
  {
  }

  ghost predicate GoodUpTo(wire: Wire, h: Host, ts: seq<Text>, n: nat)
    requires n <= |ts|
  {
    forall k :: 0 <= k < n ==> GoodLine(wire, h, ts, k)
  }

  /** As long as every line is good, all frames are retained and every waiter hears the first that matches. */
  lemma {:induction false} HearsAll(wire: Wire, h: Host, ts: seq<Text>, n: nat)
    requires Settled(h) && h.fatal.None? && n <= |ts| && NoBlanks(wire, ts) && GoodUpTo(wire, h, ts, n)
    ensures var r := TakeLines(wire, h, ts[..n]);
            Heard(h, r, FramesOf(wire, ts[..n])) && Settled(r) && r.asked == h.asked
  {
    hide Settled, Heard, GoodLine, Waiting, Silent, TakeLine, FrameAt;
    if n == 0 {
      HeardNothing(h);
      assert FramesOf(wire, ts[..0]) == [];
    } else {
      HearsAll(wire, h, ts, n - 1);
      var m, line, fs := TakeLines(wire, h, ts[..n - 1]), ts[n - 1], FramesOf(wire, ts[..n - 1]);
      assert GoodLine(wire, h, ts, n - 1);
      StillGood(wire, h, m, ts, n - 1);
      HearsOne(wire, m, line);
      HeardOneMore(h, m, TakeLine(wire, m, line), fs, FrameAt(wire, line));
      TakesOneMore(wire, h, ts, n - 1);
      FramesOfSnoc(wire, ts, n - 1);
    }
  }

  lemma TakesOneMore(wire: Wire, h: Host, ts: seq<Text>, n: nat)
    requires n < |ts| && TakeLines(wire, h, ts[..n]).fatal.None?
    ensures TakeLines(wire, h, ts[..n + 1]) == TakeLine(wire, TakeLines(wire, h, ts[..n]), ts[n])
  {
    hide TakeLine;
    var m := TakeLines(wire, h, ts[..n]);
    assert ts[..n + 1] == ts[..n] + [ts[n]];
    TakeLinesConcat(wire, h, ts[..n], [ts[n]]);
    TakesLast(wire, m, ts[n]);
  }

  lemma TakesLast(wire: Wire, m: Host, line: Text)
    requires m.fatal.None?
    ensures TakeLines(wire, m, [line]) == TakeLine(wire, m, line)
  {
    hide TakeLine;
    var next := TakeLine(wire, m, line);
    assert [line][1..] == [];
    assert TakeLines(wire, next, []) == next;
  }

  /** What makes a line good for the first waiters makes it good for those that are left. */
  lemma StillGood(wire: Wire, h: Host, m: Host, ts: seq<Text>, n: nat)
    requires n < |ts| && Heard(h, m, FramesOf(wire, ts[..n])) && m.asked == h.asked && Settled(m) && Settled(h)
    ensures |m.frames| == |h.frames| + n && m.fatal.None?
    ensures forall t: Ticket :: Waiting(m, t) <==> Waiting(h, t) && Silent(h, t, FramesOf(wire, ts[..n]))
    ensures forall t: Ticket :: WantOf(m, t, FrameAt(wire, ts[n])) == WantOf(h, t, FrameAt(wire, ts[n]))
    ensures GoodLine(wire, h, ts, n) ==>
              && wire.parse(ts[n]).Some? && |m.frames| < wire.cap
              && forall t: Ticket :: Waiting(m, t) ==> WantOf(m, t, FrameAt(wire, ts[n])) != Throws
  {
    hide Silent;
    forall t: Ticket ensures Waiting(m, t) <==> Waiting(h, t) && Silent(h, t, FramesOf(wire, ts[..n])) {
      if Waiting(m, t) || Waiting(h, t) {
        WaitingIsTold(if Waiting(m, t) then m else h, t);
      }
    }
  }

  lemma WaitingIsTold(h: Host, t: Ticket)
    requires Settled(h) && Waiting(h, t)
    ensures t < |h.told|
  {
  }

  // ----- the line at which it stops

  /** Why a line that is not good stops the driver. */
  ghost function Reason(wire: Wire, h: Host, ts: seq<Text>, n: nat): Failure
    requires n < |ts|
  {
    if wire.parse(ts[n]).None? then BadJson
    else if |h.frames| + n >= wire.cap then TooManyFrames
    else PredicateThrew
  }

  /** Some predicate that is still waiting after these frames throws on the next one. */
  ghost predicate Thrower(h: Host, t: Ticket, fs: seq<Json>, f: Json) {
    Waiting(h, t) && Silent(h, t, fs) && WantOf(h, t, f) == Throws
  }

  /** What a ticket still waiting is told when the driver stops: the frame in hand if its turn came before the throw. */
  ghost function Parting(h: Host, t: Ticket, fs: seq<Json>, f: Json, e: Failure): Outcome {
    if e == PredicateThrew && WantOf(h, t, f) == Match && !exists u: Ticket :: t < u && Thrower(h, u, fs, f)
    then Resolved(f)
    else Rejected(e)
  }

  /** The driver retained these frames, and the one in hand if a predicate threw on it, and failed for this reason. */
  ghost predicate Stopped(h: Host, r: Host, fs: seq<Json>, f: Json, e: Failure) {
    && r.fatal == Some(e) && r.waiters == [] && |r.told| == |h.told|
    && r.frames == h.frames + fs + (if e == PredicateThrew then [f] else [])
    && forall t: Ticket :: t < |h.told| ==>
                             if !Waiting(h, t) then r.told[t] == h.told[t]
                             else if Silent(h, t, fs) then r.told[t] == [Parting(h, t, fs, f, e)]
                             else ToldFirst(h, r, t, fs)
  }

  /** Telling those who wait their parting word makes what was heard into what was stopped. */
  lemma StopsAfter(h: Host, m: Host, r: Host, fs: seq<Json>, f: Json, e: Failure)
    requires Heard(h, m, fs) && Settled(m) && r.fatal == Some(e) && r.waiters == [] && |r.told| == |m.told|
    requires r.frames == m.frames + if e == PredicateThrew then [f] else []
    requires forall t: Ticket :: t < |m.told| ==>
               r.told[t] == if Waiting(m, t) then m.told[t] + [Parting(h, t, fs, f, e)] else m.told[t]
    ensures Stopped(h, r, fs, f, e)
  {
    hide Waiting, Silent, Parting;
    forall t: Ticket | t < |h.told|
      ensures if !Waiting(h, t) then r.told[t] == h.told[t]
              else if Silent(h, t, fs) then r.told[t] == [Parting(h, t, fs, f, e)]
              else ToldFirst(h, r, t, fs)
    {
      if Waiting(h, t) && !Silent(h, t, fs) {
        var k: nat :| FirstMatch(h, t, fs, k) && m.told[t] == [Resolved(fs[k])];
        assert r.told[t] == [Resolved(fs[k])];
      }
    }
  }

  lemma StopsInTheLine(wire: Wire, h: Host, m: Host, ts: seq<Text>, n: nat)
    requires n < |ts| && NoBlanks(wire, ts) && !GoodLine(wire, h, ts, n) && Settled(h) && Settled(m)
    requires Heard(h, m, FramesOf(wire, ts[..n])) && m.asked == h.asked
    ensures Stopped(h, TakeLine(wire, m, ts[n]), FramesOf(wire, ts[..n]), FrameAt(wire, ts[n]), Reason(wire, h, ts, n))
  {
    hide Settled, Heard, Silent, Wake, FailAll, Stopped;
    var fs, f, e := FramesOf(wire, ts[..n]), FrameAt(wire, ts[n]), Reason(wire, h, ts, n);
    var r := TakeLine(wire, m, ts[n]);
    StillGood(wire, h, m, ts, n);
    if e != PredicateThrew {
      FailAllTells(m, e);
      assert r.frames == m.frames + [];
      StopsAfter(h, m, r, fs, f, e);
    } else {
      var u: Ticket :| Waiting(h, u) && Silent(h, u, fs) && WantOf(h, u, f) == Throws;
      assert Thrower(h, u, fs, f);
      ThrowStops(h, m, fs, f);
      StopsAfter(h, m, r, fs, f, e);
    }
  }

  /** The frame in hand, offered to those who wait, one of whom throws on it. */
  lemma ThrowStops(h: Host, m: Host, fs: seq<Json>, f: Json)
    requires Settled(m) && m.fatal.None? && m.asked == h.asked && exists u: Ticket :: Thrower(h, u, fs, f)
    requires forall t: Ticket :: Waiting(m, t) <==> Waiting(h, t) && Silent(h, t, fs)
    ensures var r := Wake(m.(frames := m.frames + [f]), f, |m.waiters|);
            && r.fatal == Some(PredicateThrew) && r.waiters == [] && |r.told| == |m.told| && r.frames == m.frames + [f]
            && forall t: Ticket :: t < |m.told| ==>
                 r.told[t] == if Waiting(m, t) then m.told[t] + [Parting(h, t, fs, f, PredicateThrew)] else m.told[t]
  {
    hide Silent, Wake, Settled, HasTicket, Waiting;
    var m' := m.(frames := m.frames + [f]);
    var ws := m'.waiters[..|m'.waiters|];
    assert ws == m.waiters;
    MoreFramesSettled(m, f);
    WaitingIs(m);
    WaitingIs(m');
    WaitingIs(h);
    forall t: Ticket ensures ThrowsOn(m', ws, t, f) <==> Thrower(h, t, fs, f) {
    }
    var u: Ticket :| Thrower(h, u, fs, f);
    WakeThrows(m', f, |m'.waiters|, u);
    forall t: Ticket | Waiting(m, t) ensures LastWord(m', ws, t, f) == Parting(h, t, fs, f, PredicateThrew) {
      assert Gets(m', ws, t, f) <==> WantOf(h, t, f) == Match;
      if ThrownBefore(m', ws, t, f) {
        var v: Ticket :| t < v && ThrowsOn(m', ws, v, f);
        assert Thrower(h, v, fs, f);
      }
      if exists v: Ticket :: t < v && Thrower(h, v, fs, f) {
        var v: Ticket :| t < v && Thrower(h, v, fs, f);
        assert ThrowsOn(m', ws, v, f);
      }
    }
  }

  /** At the first line that is not good the driver stops, for that line's reason, and takes nothing after it. */
  lemma StopsAtFirst(wire: Wire, h: Host, ts: seq<Text>, n: nat)
    requires Settled(h) && h.fatal.None? && NoBlanks(wire, ts)
    requires n < |ts| && GoodUpTo(wire, h, ts, n) && !GoodLine(wire, h, ts, n)
    ensures Stopped(h, TakeLines(wire, h, ts), FramesOf(wire, ts[..n]), FrameAt(wire, ts[n]), Reason(wire, h, ts, n))
  {
    hide Settled, Heard, GoodLine, TakeLine, Stopped, FrameAt;
    HearsAll(wire, h, ts, n);
    var m := TakeLines(wire, h, ts[..n]);
    HeardIsAlive(h, m, FramesOf(wire, ts[..n]));
    StopsInTheLine(wire, h, m, ts, n);
    TakesOneMore(wire, h, ts, n);
    var r := TakeLines(wire, h, ts[..n + 1]);
    StoppedIsDead(h, r, FramesOf(wire, ts[..n]), FrameAt(wire, ts[n]), Reason(wire, h, ts, n));
    assert ts == ts[..n + 1] + ts[n + 1..];
    TakeLinesConcat(wire, h, ts[..n + 1], ts[n + 1..]);
    DeadTakesNothing(wire, r, ts[n + 1..]);
  }

  lemma HeardIsAlive(h: Host, m: Host, fs: seq<Json>)
    requires Heard(h, m, fs)
    ensures m.fatal.None?
  {
  }

  lemma StoppedIsDead(h: Host, r: Host, fs: seq<Json>, f: Json, e: Failure)
    requires Stopped(h, r, fs, f, e)
    ensures r.fatal.Some?
  {
  }

  // ----- a stream of chunks

  /** The lines that are not blank. */
  ghost function Texts(wire: Wire, lines: seq<Text>): seq<Text> {
    if lines == [] then []
    else (if wire.blank(lines[0]) then [] else [lines[0]]) + Texts(wire, lines[1..])
  }

  lemma {:induction false} BlanksDoNotMatter(wire: Wire, h: Host, lines: seq<Text>)
    ensures TakeLines(wire, h, Texts(wire, lines)) == TakeLines(wire, h, lines)
    ensures NoBlanks(wire, Texts(wire, lines))
    decreases |lines|
  {
    hide Wake, FailAll;
    if lines != [] {
      var line, rest := lines[0], Texts(wire, lines[1..]);
      BlanksDoNotMatter(wire, TakeLine(wire, h, line), lines[1..]);
      if wire.blank(line) {
        assert [] + rest == rest;
      } else {
        assert ([line] + rest)[1..] == rest;
      }
    }
  }

  /** The complete lines, blank ones aside, of what was buffered and what the chunks decode to. */
  ghost function LinesOf(wire: Wire, h: Host, chunks: seq<Bytes>): seq<Text> {
    var lines := Split(h.buffer + wire.text(h.decoder, Layout.Concat(chunks)), NEWLINE);
    Texts(wire, lines[..|lines| - 1])
  }

  lemma SameWaiting(r: Host, whole: Host)
    requires r.waiters == whole.waiters
    ensures forall t: Ticket :: Waiting(r, t) <==> Waiting(whole, t)
  {
  }

  /**
   However the stream is cut into chunks: while every line is good, the driver retains the frame of each line
   in order and tells every waiter the first that its predicate matches; at the first line that is not good it
   fails, for that line's reason.
   */
  lemma PumpHears(wire: Wire, h: Host, chunks: seq<Bytes>)
    requires wire.Streams() && Settled(h) && h.fatal.None? && chunks != []
    requires ShortLines(h.buffer + wire.text(h.decoder, Layout.Concat(chunks)))
    ensures var ts, r := LinesOf(wire, h, chunks), Feed(wire, h, chunks);
            && (GoodUpTo(wire, h, ts, |ts|) ==> Heard(h, r, FramesOf(wire, ts)))
            && forall n: nat :: n < |ts| && GoodUpTo(wire, h, ts, n) && !GoodLine(wire, h, ts, n) ==>
                 Stopped(h, r, FramesOf(wire, ts[..n]), FrameAt(wire, ts[n]), Reason(wire, h, ts, n))
  {
    hide Settled, GoodLine, TakeLines, Texts, Feed, ShortLines, Split, Silent, Parting, Waiting;
    var ts, r := LinesOf(wire, h, chunks), Feed(wire, h, chunks);
    var lines := Split(h.buffer + wire.text(h.decoder, Layout.Concat(chunks)), NEWLINE);
    var whole := TakeLines(wire, h, lines[..|lines| - 1]);
    FramingIndependence(wire, h, chunks);
    BlanksDoNotMatter(wire, h, lines[..|lines| - 1]);
    SameWaiting(r, whole);
    if GoodUpTo(wire, h, ts, |ts|) {
      HearsAll(wire, h, ts, |ts|);
      assert ts[..|ts|] == ts;
    }
    forall n: nat | n < |ts| && GoodUpTo(wire, h, ts, n) && !GoodLine(wire, h, ts, n)
      ensures Stopped(h, r, FramesOf(wire, ts[..n]), FrameAt(wire, ts[n]), Reason(wire, h, ts, n))
    {
      StopsAtFirst(wire, h, ts, n);
    }
  }

  // ----- asking and giving up

  /** A new waiter is told the first retained frame that concerns it, or waits if none does. */
  lemma {:induction false} AskHears(frames: seq<Json>, wants: Json -> Verdict)
    ensures Search(frames, wants).None? <==> forall k :: 0 <= k < |frames| ==> wants(frames[k]) == NoMatch
    ensures forall k :: 0 <= k < |frames| && wants(frames[k]) != NoMatch
                        && (forall j :: 0 <= j < k ==> wants(frames[j]) == NoMatch) ==>
              Search(frames, wants) == Some(if wants(frames[k]) == Match then Resolved(frames[k])
                                            else Rejected(PredicateThrew))
  {
    if frames != [] {
      var rest := frames[1..];
      AskHears(rest, wants);
      forall k | 0 < k < |frames| && wants(frames[k]) != NoMatch
                 && (forall j :: 0 <= j < k ==> wants(frames[j]) == NoMatch)
        ensures Search(frames, wants) == Some(if wants(frames[k]) == Match then Resolved(frames[k])
                                              else Rejected(PredicateThrew))
      {
        assert wants(frames[0]) == NoMatch;
        assert rest[k - 1] == frames[k];
        forall j | 0 <= j < k - 1 ensures wants(rest[j]) == NoMatch {
          assert rest[j] == frames[j + 1];
        }
      }
      if forall k :: 0 <= k < |frames| ==> wants(frames[k]) == NoMatch {
        forall k | 0 <= k < |rest| ensures wants(rest[k]) == NoMatch {
          assert rest[k] == frames[k + 1];
        }
      }
      if Search(frames, wants).None? {
        forall k | 0 <= k < |frames| ensures wants(frames[k]) == NoMatch {
          if k > 0 {
            assert frames[k] == rest[k - 1];
          }
        }
      }
    }
  }

  /** A question to a driver that has failed is told that failure; to one that has not, what it finds or nothing yet. */
  lemma AskAnswers(h: Host, wants: Json -> Verdict)
    requires Settled(h)
    ensures var r, t, found := Ask(h, wants), |h.asked|, Search(h.frames, wants);
            && r == h.(asked := h.asked + [wants], told := r.told, waiters := r.waiters)
            && |r.told| == t + 1 && r.told[..t] == h.told
            && (if h.fatal.Some? then r.told[t] == [Rejected(h.fatal.value)] && !Waiting(r, t)
                else if found.Some? then r.told[t] == [found.value] && !Waiting(r, t)
                else r.told[t] == [] && Waiting(r, t))
  {
    var r, t := Ask(h, wants), |h.asked|;
    if h.fatal.None? && Search(h.frames, wants).None? {
      assert r.waiters[|h.waiters|].ticket == t;
    }
  }

  /** Giving up a ticket that waits tells it the reason and takes it off the list; any other is left alone. */
  lemma GiveUpTells(h: Host, t: Ticket, e: Failure)
    requires Settled(h)
    ensures var r := GiveUp(h, t, e);
            && r == h.(waiters := r.waiters, told := r.told) && |r.told| == |h.told|
            && (forall u: Ticket :: Waiting(r, u) <==> Waiting(h, u) && u != t)
            && (forall u: Ticket :: u < |h.told| ==>
                  r.told[u] == if u == t && Waiting(h, t) then h.told[u] + [Rejected(e)] else h.told[u])
  {
    match IndexOf(h.waiters, t)
    case None =>
    case Some(i) =>
      assert h.waiters[i].ticket == t;
      var r := GiveUp(h, t, e);
      forall u: Ticket ensures Waiting(r, u) <==> Waiting(h, u) && u != t {
        WaitingWithout(h, i, r, u);
      }
  }
}
