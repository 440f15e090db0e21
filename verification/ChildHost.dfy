/**
 The driver of a host child process: the frame pump over its stdout and the waiters on it.
 */
module ChildHost {

  /*
   The state and its steps are functions; the class of `HostProcess` performs them in place. Everything the
   event loop may call next is an event, so a sequence of events is any run of the driver.
   */

  import opened Prelude
  import opened Strings
  import opened CanonicalJson
  import Decimal
  import Layout

  const MAX_BUFFER := 64 * 1024

  /** One call of `createWaiter`; the number of calls before it. */
  type Ticket = nat

  /** A caller's predicate may throw. */
  datatype Verdict = Match | NoMatch | Throws

  datatype Failure = OverlongLine | BadJson | TooManyFrames | PredicateThrew | TimedOut | WriteFailed | Ended

  datatype Outcome = Resolved(frame: Json) | Rejected(error: Failure)

  datatype Waiter = Waiter(ticket: Ticket, wants: Json -> Verdict)

  /**
   Foreign code: the streaming decoder, whose state is the bytes it holds back, the blank-line test and the
   JSON parser; and the frame cap.
   */
  datatype Wire = Wire(
    next: (Bytes, Bytes) -> Bytes,
    text: (Bytes, Bytes) -> Text,
    blank: Text -> bool,
    parse: Text -> Option<Json>,
    cap: nat)
  {
    /** Decoding two chunks gives what decoding them as one gives. */
    ghost predicate Streams() {
      forall s, a, b :: next(s, a + b) == next(next(s, a), b) && text(s, a + b) == text(s, a) + text(next(s, a), b)
    }
  }

  /** The fields of the driver, and for every ticket what was asked and what its promise was told. */
  datatype Host = Host(
    frames: seq<Json>,
    waiters: seq<Waiter>,
    buffer: Text,
    fatal: Option<Failure>,
    decoder: Bytes,
    asked: seq<Json -> Verdict>,
    told: seq<seq<Outcome>>)

  // ----- steps

  function Tell(h: Host, t: Ticket, o: Outcome): Host {
    if t < |h.told| then h.(told := h.told[t := h.told[t] + [o]]) else h
  }

  function RejectAll(h: Host, ws: seq<Waiter>, e: Failure): Host
    decreases |ws|
  {
    if ws == [] then h
    else RejectAll(Tell(h, ws[|ws| - 1].ticket, Rejected(e)), ws[..|ws| - 1], e)
  }

  function FailAll(h: Host, e: Failure): Host {
    if h.fatal.Some? then h
    else RejectAll(h.(fatal := Some(e), buffer := [], waiters := []), h.waiters, e)
  }

  function Without<T>(s: seq<T>, i: nat): seq<T>
    requires i < |s|
  {
    s[..i] + s[i + 1..]
  }

  /** Offer a frame to the first `i` waiters, the last of them first. */
  function Wake(h: Host, f: Json, i: nat): Host
    requires i <= |h.waiters|
    decreases i
  {
    if i == 0 then h
    else
      var w := h.waiters[i - 1];
      match w.wants(f)
      case Throws => FailAll(h, PredicateThrew)
      case NoMatch => Wake(h, f, i - 1)
      case Match => Wake(Tell(h.(waiters := Without(h.waiters, i - 1)), w.ticket, Resolved(f)), f, i - 1)
  }

  function TakeLine(wire: Wire, h: Host, line: Text): Host {
    if wire.blank(line) then h
    else
      match wire.parse(line)
      case None => FailAll(h, BadJson)
      case Some(f) =>
        if |h.frames| >= wire.cap then FailAll(h, TooManyFrames)
        else Wake(h.(frames := h.frames + [f]), f, |h.waiters|)
  }

  function TakeLines(wire: Wire, h: Host, lines: seq<Text>): Host
    decreases |lines|
  {
    if lines == [] || h.fatal.Some? then h else TakeLines(wire, TakeLine(wire, h, lines[0]), lines[1..])
  }

  function OnData(wire: Wire, h: Host, chunk: Bytes): Host {
    if h.fatal.Some? then h
    else
      var parts := Split(h.buffer + wire.text(h.decoder, chunk), NEWLINE);
      var rest := parts[|parts| - 1];
      var fed := h.(buffer := rest, decoder := wire.next(h.decoder, chunk));
      if |rest| > MAX_BUFFER then FailAll(fed, OverlongLine) else TakeLines(wire, fed, parts[..|parts| - 1])
  }

  /** The first frame that matches; a predicate that throws before that ends the search. */
  function Search(frames: seq<Json>, wants: Json -> Verdict): Option<Outcome> {
    if frames == [] then None
    else
      match wants(frames[0])
      case Match => Some(Resolved(frames[0]))
      case Throws => Some(Rejected(PredicateThrew))
      case NoMatch => Search(frames[1..], wants)
  }

  function Ask(h: Host, wants: Json -> Verdict): Host {
    var t, asking := |h.asked|, h.(asked := h.asked + [wants], told := h.told + [[]]);
    if h.fatal.Some? then Tell(asking, t, Rejected(h.fatal.value))
    else
      match Search(h.frames, wants)
      case Some(o) => Tell(asking, t, o)
      case None => asking.(waiters := h.waiters + [Waiter(t, wants)])
  }

  /** Where the waiter of a ticket stands in the list. */
  function IndexOf(ws: seq<Waiter>, t: Ticket): (r: Option<nat>)
    ensures r.Some? ==> r.value < |ws| && ws[r.value].ticket == t
    ensures r.None? ==> forall i :: 0 <= i < |ws| ==> ws[i].ticket != t
  {
    if ws == [] then None
    else if ws[|ws| - 1].ticket == t then Some(|ws| - 1)
    else IndexOf(ws[..|ws| - 1], t)
  }

  /** A timeout or a failed write gives a waiter up, if it is still waiting. */
  function GiveUp(h: Host, t: Ticket, e: Failure): Host {
    match IndexOf(h.waiters, t)
    case None => h
    case Some(i) => Tell(h.(waiters := Without(h.waiters, i)), t, Rejected(e))
  }

  datatype Event =
    | Data(chunk: Bytes)
    | Asked(wants: Json -> Verdict)
    | GivenUp(ticket: Ticket, error: Failure)
    | Failed(error: Failure)

  function Step(wire: Wire, h: Host, e: Event): Host {
    match e
    case Data(chunk) => OnData(wire, h, chunk)
    case Asked(wants) => Ask(h, wants)
    case GivenUp(t, error) => GiveUp(h, t, error)
    case Failed(error) => FailAll(h, error)
  }

  function Run(wire: Wire, h: Host, events: seq<Event>): Host
    decreases |events|
  {
    if events == [] then h else Run(wire, Step(wire, h, events[0]), events[1..])
  }

  function Fresh(decoder: Bytes): Host {
    Host([], [], [], None, decoder, [], [])
  }

  // ----- invariants

  ghost predicate HasTicket(ws: seq<Waiter>, t: Ticket) {
    exists i :: 0 <= i < |ws| && ws[i].ticket == t
  }

  ghost predicate Waiting(h: Host, t: Ticket) {
    HasTicket(h.waiters, t)
  }

  /** Waiters stand in the order of their tickets and hold the predicates asked. */
  ghost predicate Registered(h: Host) {
    && |h.told| == |h.asked|
    && (forall i :: 0 <= i < |h.waiters| ==>
          h.waiters[i].ticket < |h.asked| && h.waiters[i].wants == h.asked[h.waiters[i].ticket])
    && (forall i, j :: 0 <= i < j < |h.waiters| ==> h.waiters[i].ticket < h.waiters[j].ticket)
  }

  /** Every promise has been told nothing while it waits, and exactly one thing once it does not. */
  ghost predicate ToldOnce(h: Host) {
    forall t :: 0 <= t < |h.told| ==> |h.told[t]| == if Waiting(h, t) then 0 else 1
  }

  /** What a promise resolved to is a retained frame that its predicate accepts. */
  ghost predicate ToldRight(h: Host) {
    |h.told| == |h.asked| &&
    forall t :: 0 <= t < |h.told| && |h.told[t]| == 1 && h.told[t][0].Resolved? ==>
      h.told[t][0].frame in h.frames && h.asked[t](h.told[t][0].frame) == Match
  }

  /** No frame before the last matches a waiter, and the last matches none from the `i`-th on. */
  ghost predicate HeardFrom(h: Host, i: nat) {
    forall j, k :: 0 <= j < |h.waiters| && 0 <= k < |h.frames| && (j >= i || k < |h.frames| - 1) ==>
      h.waiters[j].wants(h.frames[k]) == NoMatch
  }

  /** No waiter waits for a frame that has already arrived. */
  ghost predicate NoLostWakeup(h: Host) {
    forall j, k :: 0 <= j < |h.waiters| && 0 <= k < |h.frames| ==> h.waiters[j].wants(h.frames[k]) == NoMatch
  }

  ghost predicate Bounded(wire: Wire, h: Host) {
    |h.frames| <= wire.cap && |h.buffer| <= MAX_BUFFER
  }

  /** After a fatal error nobody waits and nothing is buffered. */
  ghost predicate DeadIsEmpty(h: Host) {
    h.fatal.Some? ==> h.waiters == [] && h.buffer == []
  }

  ghost predicate Settled(h: Host) {
    Registered(h) && ToldOnce(h) && ToldRight(h) && DeadIsEmpty(h)
  }

  ghost predicate Inv(wire: Wire, h: Host) {
    Settled(h) && NoLostWakeup(h) && Bounded(wire, h)
  }

  /** Earlier outcomes and questions stay; frames are only added. */
  ghost predicate Extends(h: Host, h': Host) {
    && h.asked <= h'.asked
    && |h.told| <= |h'.told|
    && (forall t :: 0 <= t < |h.told| ==> h.told[t] <= h'.told[t])
    && h.frames <= h'.frames
    && (h.fatal.Some? ==> h'.fatal == h.fatal)
  }

  // ----- every step keeps the invariant

  lemma {:induction false} RejectAllTells(h: Host, ws: seq<Waiter>, e: Failure)
    requires forall i :: 0 <= i < |ws| ==> ws[i].ticket < |h.told|
    requires forall i, j :: 0 <= i < j < |ws| ==> ws[i].ticket < ws[j].ticket
    ensures var r := RejectAll(h, ws, e);
            && r == h.(told := r.told) && |r.told| == |h.told|
            && forall t :: 0 <= t < |h.told| ==> r.told[t] == h.told[t] + if HasTicket(ws, t) then [Rejected(e)] else []
    decreases |ws|
  {
    if ws != [] {
      var n := |ws| - 1;
      var last, front := ws[n].ticket, ws[..n];
      var told := Tell(h, last, Rejected(e));
      RejectAllTells(told, front, e);
      forall t | 0 <= t < |h.told|
        ensures RejectAll(h, ws, e).told[t] == h.told[t] + if HasTicket(ws, t) then [Rejected(e)] else []
      {
        assert HasTicket(ws, t) <==> t == last || HasTicket(front, t) by {
          if HasTicket(front, t) {
            var i :| 0 <= i < |front| && front[i].ticket == t;
            assert ws[i].ticket == t;
          }
          if t == last {
            assert ws[n].ticket == t;
          }
        }
        assert !HasTicket(front, last);
      }
    }
  }

  /** What rejecting does at the last waiter. */
  lemma RejectLast(h: Host, e: Failure)
    requires Registered(h)
    ensures h.waiters == [] ==> RejectAll(h.(waiters := []), h.waiters, e) == h
    ensures h.waiters != [] ==>
              var n := |h.waiters| - 1;
              var t := h.waiters[n].ticket;
              t < |h.told| &&
              var next := h.(waiters := h.waiters[..n], told := h.told[t := h.told[t] + [Rejected(e)]]);
              && Registered(next)
              && RejectAll(next.(waiters := []), next.waiters, e) == RejectAll(h.(waiters := []), h.waiters, e)
  {
  }

  lemma StillRegistered(h: Host, r: Host)
    requires Registered(h) && r.waiters == h.waiters && r.asked == h.asked && r.told == h.told
    ensures Registered(r)
  {
  }

  lemma WakeNone(h: Host, f: Json)
    ensures Wake(h, f, 0) == h
  {
  }

  lemma FailAllKeeps(h: Host, e: Failure)
    requires Settled(h)
    ensures var r := FailAll(h, e);
            && Settled(r) && r.fatal.Some? && r.waiters == [] && r.frames == h.frames && r.buffer == [] && Extends(h, r)
            && r.asked == h.asked
  {
    if h.fatal.None? {
      var dead := h.(fatal := Some(e), buffer := [], waiters := []);
      RejectAllTells(dead, h.waiters, e);
      var r := FailAll(h, e);
      forall t | 0 <= t < |r.told| ensures |r.told[t]| == 1 {
        assert Waiting(h, t) <==> HasTicket(h.waiters, t);
      }
    }
  }

  /** A waiter that is taken off the list and told its outcome. */
  lemma RemoveAndTell(h: Host, i: nat, o: Outcome)
    requires Settled(h) && h.fatal.None? && i < |h.waiters|
    requires o.Resolved? ==> o.frame in h.frames && h.waiters[i].wants(o.frame) == Match
    ensures var r := Tell(h.(waiters := Without(h.waiters, i)), h.waiters[i].ticket, o);
            Settled(r) && Extends(h, r) && r.frames == h.frames && r.buffer == h.buffer && r.fatal == h.fatal
  {
    var r := Tell(h.(waiters := Without(h.waiters, i)), h.waiters[i].ticket, o);
    forall t | 0 <= t < |r.told| ensures |r.told[t]| == if Waiting(r, t) then 0 else 1 {
      WaitingWithout(h, i, r, t);
    }
  }

  lemma WaitingWithout(h: Host, i: nat, r: Host, t: Ticket)
    requires Registered(h) && i < |h.waiters| && r.waiters == Without(h.waiters, i)
    ensures Waiting(r, t) <==> Waiting(h, t) && t != h.waiters[i].ticket
  {
    if Waiting(h, t) && t != h.waiters[i].ticket {
      var j :| 0 <= j < |h.waiters| && h.waiters[j].ticket == t;
      assert r.waiters[if j < i then j else j - 1] == h.waiters[j];
    }
  }

  lemma {:induction false} WakeKeeps(h: Host, f: Json, i: nat)
    requires Settled(h) && h.fatal.None? && i <= |h.waiters|
    requires h.frames != [] && h.frames[|h.frames| - 1] == f && HeardFrom(h, i)
    ensures var r := Wake(h, f, i);
            && Settled(r) && NoLostWakeup(r) && Extends(h, r) && r.frames == h.frames
            && (r.buffer == h.buffer || r.buffer == [])
    decreases i
  {
    hide Extends, Settled, FailAll;
    ExtendsItself(h);
    if i > 0 {
      var w := h.waiters[i - 1];
      match w.wants(f)
      case Throws => FailAllKeeps(h, PredicateThrew);
      case NoMatch => WakeKeeps(h, f, i - 1);
      case Match =>
        RemoveAndTell(h, i - 1, Resolved(f));
        var next := Tell(h.(waiters := Without(h.waiters, i - 1)), w.ticket, Resolved(f));
        WakeKeeps(next, f, i - 1);
        ExtendsTwice(h, next, Wake(next, f, i - 1));
    }
  }

  /** What waking does at one waiter, before it goes on to the one before it. */
  lemma WakeOne(h: Host, f: Json, i: nat)
    requires Settled(h) && h.fatal.None? && i < |h.waiters|
    requires h.frames != [] && h.frames[|h.frames| - 1] == f && HeardFrom(h, i + 1)
    ensures Registered(h) && h.waiters[i].ticket < |h.told| && IndexOf(h.waiters, h.waiters[i].ticket) == Some(i)
    ensures h.waiters[i].wants(f) == Throws ==> Wake(h, f, i + 1) == FailAll(h, PredicateThrew)
    ensures h.waiters[i].wants(f) == NoMatch ==> Wake(h, f, i + 1) == Wake(h, f, i) && HeardFrom(h, i)
    ensures h.waiters[i].wants(f) == Match ==>
              var t := h.waiters[i].ticket;
              var next := h.(waiters := Without(h.waiters, i), told := h.told[t := h.told[t] + [Resolved(f)]]);
              Wake(h, f, i + 1) == Wake(next, f, i) && Settled(next) && HeardFrom(next, i)
  {
    if h.waiters[i].wants(f) == Match {
      RemoveAndTell(h, i, Resolved(f));
    }
  }

  lemma ExtendsItself(h: Host)
    ensures Extends(h, h)
  {
  }

  lemma ExtendsTwice(a: Host, b: Host, c: Host)
    requires Extends(a, b) && Extends(b, c)
    ensures Extends(a, c)
  {
  }

  lemma MoreFrames(h: Host, f: Json)
    requires Settled(h) && h.fatal.None?
    ensures Settled(h.(frames := h.frames + [f]))
    ensures NoLostWakeup(h) ==> HeardFrom(h.(frames := h.frames + [f]), |h.waiters|)
  {
  }

  lemma TakeLineKeeps(wire: Wire, h: Host, line: Text)
    requires Inv(wire, h) && h.fatal.None?
    ensures Inv(wire, TakeLine(wire, h, line)) && Extends(h, TakeLine(wire, h, line))
  {
    FailAllKeeps(h, BadJson);
    FailAllKeeps(h, TooManyFrames);
    if !wire.blank(line) && wire.parse(line).Some? && |h.frames| < wire.cap {
      var f := wire.parse(line).value;
      WakeKeeps(h.(frames := h.frames + [f]), f, |h.waiters|);
    }
  }

  lemma {:induction false} TakeLinesKeeps(wire: Wire, h: Host, lines: seq<Text>)
    requires Inv(wire, h)
    ensures Inv(wire, TakeLines(wire, h, lines)) && Extends(h, TakeLines(wire, h, lines))
    decreases |lines|
  {
    if lines != [] && h.fatal.None? {
      var next := TakeLine(wire, h, lines[0]);
      TakeLineKeeps(wire, h, lines[0]);
      TakeLinesKeeps(wire, next, lines[1..]);
      ExtendsTwice(h, next, TakeLines(wire, h, lines));
    }
  }

  lemma OnDataKeeps(wire: Wire, h: Host, chunk: Bytes)
    requires Inv(wire, h)
    ensures Inv(wire, OnData(wire, h, chunk)) && Extends(h, OnData(wire, h, chunk))
  {
    if h.fatal.None? {
      var parts := Split(h.buffer + wire.text(h.decoder, chunk), NEWLINE);
      var fed := h.(buffer := parts[|parts| - 1], decoder := wire.next(h.decoder, chunk));
      SameWaiters(h, fed);
      if |fed.buffer| > MAX_BUFFER {
        FailAllKeeps(fed, OverlongLine);
      } else {
        TakeLinesKeeps(wire, fed, parts[..|parts| - 1]);
      }
    }
  }

  lemma SameWaiters(h: Host, r: Host)
    requires Settled(h) && h.fatal.None? && r == h.(buffer := r.buffer, decoder := r.decoder)
    ensures Settled(r) && (NoLostWakeup(h) ==> NoLostWakeup(r)) && Extends(h, r)
  {
  }

  lemma {:induction false} SearchFinds(frames: seq<Json>, wants: Json -> Verdict)
    ensures Search(frames, wants).None? ==> forall k :: 0 <= k < |frames| ==> wants(frames[k]) == NoMatch
    ensures Search(frames, wants).Some? && Search(frames, wants).value.Resolved? ==>
              Search(frames, wants).value.frame in frames && wants(Search(frames, wants).value.frame) == Match
  {
    if frames != [] {
      SearchFinds(frames[1..], wants);
    }
  }

  lemma AskKeeps(wire: Wire, h: Host, wants: Json -> Verdict)
    requires Inv(wire, h)
    ensures Inv(wire, Ask(h, wants)) && Extends(h, Ask(h, wants))
  {
    hide Search;
    var r := Ask(h, wants);
    SearchFinds(h.frames, wants);
    forall t | 0 <= t < |r.told| ensures |r.told[t]| == if Waiting(r, t) then 0 else 1 {
      if t < |h.told| {
        assert Waiting(r, t) <==> Waiting(h, t) by {
          if Waiting(h, t) {
            var i :| 0 <= i < |h.waiters| && h.waiters[i].ticket == t;
            assert r.waiters[i].ticket == t;
          }
        }
      } else if |r.waiters| > |h.waiters| {
        assert r.waiters[|h.waiters|].ticket == t;
      }
    }
  }

  lemma GiveUpKeeps(wire: Wire, h: Host, t: Ticket, e: Failure)
    requires Inv(wire, h)
    ensures Inv(wire, GiveUp(h, t, e)) && Extends(h, GiveUp(h, t, e))
  {
    if IndexOf(h.waiters, t).Some? {
      RemoveAndTell(h, IndexOf(h.waiters, t).value, Rejected(e));
    }
  }

  lemma StepKeeps(wire: Wire, h: Host, e: Event)
    requires Inv(wire, h)
    ensures Inv(wire, Step(wire, h, e)) && Extends(h, Step(wire, h, e))
  {
    match e
    case Data(chunk) => OnDataKeeps(wire, h, chunk);
    case Asked(wants) => AskKeeps(wire, h, wants);
    case GivenUp(t, error) => GiveUpKeeps(wire, h, t, error);
    case Failed(error) => FailAllKeeps(h, error);
  }

  /** Every run keeps the invariant and every outcome it has given. */
  lemma {:induction false} RunKeeps(wire: Wire, h: Host, events: seq<Event>)
    requires Inv(wire, h)
    ensures Inv(wire, Run(wire, h, events)) && Extends(h, Run(wire, h, events))
    decreases |events|
  {
    if events != [] {
      var next := Step(wire, h, events[0]);
      StepKeeps(wire, h, events[0]);
      RunKeeps(wire, next, events[1..]);
      ExtendsTwice(h, next, Run(wire, h, events));
    }
  }

  /**
   After any run from the start: every promise was told exactly one thing or is still waiting
   and was told nothing; nobody waits for a frame that is there; at most `cap` frames are
   retained; and after a fatal error, which closing always leaves, nobody waits at all.
   */
  lemma EveryRun(wire: Wire, decoder: Bytes, events: seq<Event>)
    ensures var h := Run(wire, Fresh(decoder), events);
            && ToldOnce(h) && ToldRight(h) && NoLostWakeup(h) && |h.frames| <= wire.cap
            && (h.fatal.Some? ==> h.waiters == [] && forall t :: 0 <= t < |h.told| ==> |h.told[t]| == 1)
    ensures forall e :: var closed := Step(wire, Run(wire, Fresh(decoder), events), Failed(e));
                        closed.fatal.Some? && closed.waiters == []
  {
    RunKeeps(wire, Fresh(decoder), events);
    var h := Run(wire, Fresh(decoder), events);
    forall e {
      FailAllKeeps(h, e);
    }
  }

  // ----- requests

  function Field(f: Json, key: Text): Json {
    if f.JObject? && key in f.members then f.members[key] else JNull
  }

  lemma DigitsAreLiteral(id: nat)
    ensures IsLiteral(Decimal.Digits(id))
  {
  }

  function IdLiteral(id: nat): Json {
    DigitsAreLiteral(id);
    JNumber(Decimal.Digits(id))
  }

  /** The terminal frame of a request; a frame that is `null` has no fields to read. */
  function ResponseTo(id: nat, name: Text): Json -> Verdict {
    (f: Json) =>
      if f.JNull? then Throws
      else if && Field(f, Units("id")) == IdLiteral(id)
              && Field(f, Units("kind")) in {JString(Units("res")), JString(Units("error"))}
              && Field(f, Units("method")) == JString(name) then Match
      else NoMatch
  }

  /** The response to a request is a frame of its id and method that is a result or an error, and no other. */
  lemma ResponseIs(id: nat, name: Text, f: Json)
    ensures ResponseTo(id, name)(f) == Throws <==> f == JNull
    ensures ResponseTo(id, name)(f) == Match <==>
            && Field(f, [0x69, 0x64]) == JNumber(Decimal.Digits(id)) && Field(f, Units("method")) == JString(name)
            && Field(f, Units("kind")) in {JString([0x72, 0x65, 0x73]), JString([0x65, 0x72, 0x72, 0x6f, 0x72])}
  {
    DigitsAreLiteral(id);
    assert Units("id") == [0x69, 0x64] && Units("res") == [0x72, 0x65, 0x73];
    assert Units("error") == [0x65, 0x72, 0x72, 0x6f, 0x72];
  }

  /** A call of `request`: the waiter it registered, and the id and method it asks for. */
  datatype Request = Request(ticket: Ticket, id: nat, name: Text)

  /** The driver together with its counter and the requests made so far. */
  datatype Caller = Caller(host: Host, nextId: nat, requests: seq<Request>)

  datatype Call = Other(event: Event) | Requested(name: Text, written: bool)

  /** A request draws the next id, registers its waiter and gives it up if it cannot be written. */
  function Send(c: Caller, name: Text, written: bool): Caller {
    var t := |c.host.asked|;
    var waiting := Ask(c.host, ResponseTo(c.nextId, name));
    Caller(
      if written then waiting else GiveUp(waiting, t, WriteFailed),
      c.nextId + 1,
      c.requests + [Request(t, c.nextId, name)])
  }

  function CallStep(wire: Wire, c: Caller, call: Call): Caller {
    match call
    case Other(e) => c.(host := Step(wire, c.host, e))
    case Requested(name, written) => Send(c, name, written)
  }

  function CallAll(wire: Wire, c: Caller, calls: seq<Call>): Caller
    decreases |calls|
  {
    if calls == [] then c else CallAll(wire, CallStep(wire, c, calls[0]), calls[1..])
  }

  function FreshCaller(decoder: Bytes): Caller {
    Caller(Fresh(decoder), 1, [])
  }

  /** Each request asked for its own id; ids and tickets were drawn in order. */
  ghost predicate Numbered(c: Caller) {
    && (forall k :: 0 <= k < |c.requests| ==>
          var r := c.requests[k];
          r.id < c.nextId && r.ticket < |c.host.asked| && c.host.asked[r.ticket] == ResponseTo(r.id, r.name))
    && (forall j, k :: 0 <= j < k < |c.requests| ==>
          c.requests[j].id < c.requests[k].id && c.requests[j].ticket < c.requests[k].ticket)
  }

  lemma NumberedStays(c: Caller, h: Host)
    requires Numbered(c) && Extends(c.host, h)
    ensures Numbered(c.(host := h))
  {
    hide ResponseTo;
  }

  lemma NumberedBelow(c: Caller, n: nat)
    requires Numbered(c) && c.nextId <= n
    ensures Numbered(c.(nextId := n))
  {
  }

  lemma AskAppends(h: Host, wants: Json -> Verdict)
    ensures Ask(h, wants).asked == h.asked + [wants]
  {
  }

  lemma SendKeeps(wire: Wire, c: Caller, name: Text, written: bool)
    requires Inv(wire, c.host) && Numbered(c)
    ensures Inv(wire, Send(c, name, written).host) && Numbered(Send(c, name, written))
  {
    hide Inv, Ask, GiveUp, ResponseTo;
    var t, wants := |c.host.asked|, ResponseTo(c.nextId, name);
    var waiting := Ask(c.host, wants);
    AskKeeps(wire, c.host, wants);
    AskAppends(c.host, wants);
    GiveUpKeeps(wire, waiting, t, WriteFailed);
    var sent := Send(c, name, written);
    assert waiting.asked[t] == wants && waiting.asked <= sent.host.asked;
  }

  /** Whatever is called in whatever order, requests keep ids of their own. */
  lemma {:induction false} CallsKeep(wire: Wire, c: Caller, calls: seq<Call>)
    requires Inv(wire, c.host) && Numbered(c)
    ensures Inv(wire, CallAll(wire, c, calls).host) && Numbered(CallAll(wire, c, calls))
    decreases |calls|
  {
    hide Inv, Numbered, Step, Send;
    if calls != [] {
      match calls[0] {
        case Other(e) =>
          StepKeeps(wire, c.host, e);
          NumberedStays(c, Step(wire, c.host, e));
        case Requested(name, written) =>
          SendKeeps(wire, c, name, written);
      }
      CallsKeep(wire, CallStep(wire, c, calls[0]), calls[1..]);
    }
  }

  /** What a request of a driver was told, when it was told a frame. */
  ghost predicate Answered(c: Caller, k: nat) {
    && k < |c.requests| && c.requests[k].ticket < |c.host.told|
    && var told := c.host.told[c.requests[k].ticket]; |told| == 1 && told[0].Resolved?
  }

  ghost function Answer(c: Caller, k: nat): Json
    requires Answered(c, k)
  {
    c.host.told[c.requests[k].ticket][0].frame
  }

  /**
   After any run of a driver, what a request resolved to carries its own id and method, so two requests
   never share a response.
   */
  lemma ResponsesAreNotMixed(wire: Wire, decoder: Bytes, calls: seq<Call>, j: nat, k: nat)
    requires var c := CallAll(wire, FreshCaller(decoder), calls); j != k && Answered(c, j) && Answered(c, k)
    ensures var c := CallAll(wire, FreshCaller(decoder), calls);
            && Answer(c, j) != Answer(c, k)
            && Field(Answer(c, j), Units("id")) == IdLiteral(c.requests[j].id)
            && Field(Answer(c, j), Units("method")) == JString(c.requests[j].name)
  {
    var c := CallAll(wire, FreshCaller(decoder), calls);
    CallsKeep(wire, FreshCaller(decoder), calls);
    AnswerIsOwn(c, j);
    AnswerIsOwn(c, k);
    Decimal.DigitsDiffer(c.requests[j].id, c.requests[k].id, 0);
  }

  lemma AnswerIsOwn(c: Caller, k: nat)
    requires Settled(c.host) && Numbered(c) && Answered(c, k)
    ensures Field(Answer(c, k), Units("id")) == IdLiteral(c.requests[k].id)
    ensures Field(Answer(c, k), Units("method")) == JString(c.requests[k].name)
  {
    var r := c.requests[k];
    assert ResponseTo(r.id, r.name)(Answer(c, k)) == Match;
  }

  // ----- chunks and lines

  /** Another unfinished line and decoder state under the same frames and waiters. */
  ghost function Refed(h: Host, buffer: Text, decoder: Bytes): Host {
    if h.fatal.Some? then h.(decoder := decoder) else h.(buffer := buffer, decoder := decoder)
  }

  lemma {:induction false} RejectAllRefed(h: Host, ws: seq<Waiter>, e: Failure, d: Bytes)
    ensures RejectAll(h.(decoder := d), ws, e) == RejectAll(h, ws, e).(decoder := d)
    ensures RejectAll(h, ws, e).fatal == h.fatal
    decreases |ws|
  {
    if ws != [] {
      RejectAllRefed(Tell(h, ws[|ws| - 1].ticket, Rejected(e)), ws[..|ws| - 1], e, d);
    }
  }

  lemma FailAllRefed(h: Host, e: Failure, b: Text, d: Bytes)
    ensures FailAll(Refed(h, b, d), e) == Refed(FailAll(h, e), b, d)
  {
    RejectAllRefed(h.(fatal := Some(e), buffer := [], waiters := []), h.waiters, e, d);
  }

  lemma {:induction false} WakeRefed(h: Host, f: Json, i: nat, b: Text, d: Bytes)
    requires i <= |h.waiters|
    ensures Wake(Refed(h, b, d), f, i) == Refed(Wake(h, f, i), b, d)
    decreases i
  {
    if i > 0 {
      var w := h.waiters[i - 1];
      match w.wants(f)
      case Throws => FailAllRefed(h, PredicateThrew, b, d);
      case NoMatch => WakeRefed(h, f, i - 1, b, d);
      case Match => WakeRefed(Tell(h.(waiters := Without(h.waiters, i - 1)), w.ticket, Resolved(f)), f, i - 1, b, d);
    }
  }

  lemma TakeLineRefed(wire: Wire, h: Host, line: Text, b: Text, d: Bytes)
    ensures TakeLine(wire, Refed(h, b, d), line) == Refed(TakeLine(wire, h, line), b, d)
  {
    FailAllRefed(h, BadJson, b, d);
    FailAllRefed(h, TooManyFrames, b, d);
    if wire.parse(line).Some? {
      WakeRefed(h.(frames := h.frames + [wire.parse(line).value]), wire.parse(line).value, |h.waiters|, b, d);
    }
  }

  lemma {:induction false} TakeLinesRefed(wire: Wire, h: Host, lines: seq<Text>, b: Text, d: Bytes)
    ensures TakeLines(wire, Refed(h, b, d), lines) == Refed(TakeLines(wire, h, lines), b, d)
    decreases |lines|
  {
    if lines != [] && h.fatal.None? {
      TakeLineRefed(wire, h, lines[0], b, d);
      TakeLinesRefed(wire, TakeLine(wire, h, lines[0]), lines[1..], b, d);
    }
  }

  lemma {:induction false} TakeLinesConcat(wire: Wire, h: Host, a: seq<Text>, b: seq<Text>)
    ensures TakeLines(wire, h, a + b) == TakeLines(wire, TakeLines(wire, h, a), b)
    decreases |a|
  {
    if a == [] {
      assert a + b == b;
    } else if h.fatal.None? {
      assert (a + b)[1..] == a[1..] + b;
      TakeLinesConcat(wire, TakeLine(wire, h, a[0]), a[1..], b);
    }
  }

  /** Every line of the text, the unfinished last one included, fits the buffer. */
  ghost predicate ShortLines(text: Text) {
    var lines := Split(text, NEWLINE);
    forall i :: 0 <= i < |lines| ==> |lines[i]| <= 0x1_0000
  }

  /** The same but for bytes the decoder holds back after the end. */
  ghost predicate Alike(x: Host, y: Host) {
    x == y.(decoder := x.decoder) && (x.fatal.None? ==> x == y)
  }

  lemma ShortPrefix(x: Text, y: Text)
    requires ShortLines(x + y)
    ensures ShortLines(x)
  {
    var xs := Split(x, NEWLINE);
    var last := xs[|xs| - 1];
    SplitConcat(x, y, NEWLINE);
    SegmentsArePlain(x, NEWLINE);
    FirstSegment(last, y, NEWLINE);
    var all := Split(x + y, NEWLINE);
    assert forall i :: 0 <= i < |xs| - 1 ==> xs[i] == all[i];
    assert all[|xs| - 1] == Split(last + y, NEWLINE)[0];
  }

  /** Where a feeding of text leaves the driver, if its lines fit. */
  lemma OnDataIsLines(wire: Wire, h: Host, chunk: Bytes)
    requires h.fatal.None? && ShortLines(h.buffer + wire.text(h.decoder, chunk))
    ensures var parts := Split(h.buffer + wire.text(h.decoder, chunk), NEWLINE);
            OnData(wire, h, chunk) ==
            Refed(TakeLines(wire, h, parts[..|parts| - 1]), parts[|parts| - 1], wire.next(h.decoder, chunk))
  {
    var parts := Split(h.buffer + wire.text(h.decoder, chunk), NEWLINE);
    TakeLinesRefed(wire, h, parts[..|parts| - 1], parts[|parts| - 1], wire.next(h.decoder, chunk));
  }

  /** Two chunks do what the two as one chunk do. */
  lemma TwoChunks(wire: Wire, h: Host, a: Bytes, b: Bytes)
    requires wire.Streams() && h.fatal.None? && ShortLines(h.buffer + wire.text(h.decoder, a + b))
    ensures Alike(OnData(wire, OnData(wire, h, a), b), OnData(wire, h, a + b))
  {
    hide TakeLines, Split, ShortLines;
    var first, second := h.buffer + wire.text(h.decoder, a), wire.text(wire.next(h.decoder, a), b);
    assert h.buffer + wire.text(h.decoder, a + b) == first + second;
    ShortPrefix(first, second);
    OnDataIsLines(wire, h, a);
    OnDataIsLines(wire, h, a + b);
    var pa := Split(first, NEWLINE);
    var la, ra := pa[..|pa| - 1], pa[|pa| - 1];
    SplitConcat(first, second, NEWLINE);
    var pb := Split(ra + second, NEWLINE);
    var lb, rb := pb[..|pb| - 1], pb[|pb| - 1];
    assert Split(first + second, NEWLINE) == la + pb && (la + pb)[..|la + pb| - 1] == la + lb;
    TakeLinesConcat(wire, h, la, lb);
    var middle, da := TakeLines(wire, h, la), wire.next(h.decoder, a);
    TakeLinesRefed(wire, middle, lb, ra, da);
    DeadTakesNothing(wire, middle, lb);
    if middle.fatal.None? {
      ShortTail(la, pb, first + second, ra + second);
      OnDataIsLines(wire, Refed(middle, ra, da), b);
    }
  }

  lemma DeadTakesNothing(wire: Wire, h: Host, lines: seq<Text>)
    ensures h.fatal.Some? ==> TakeLines(wire, h, lines) == h
  {
  }

  lemma ShortTail(la: seq<Text>, pb: seq<Text>, whole: Text, tail: Text)
    requires Split(whole, NEWLINE) == la + pb && pb == Split(tail, NEWLINE) && ShortLines(whole)
    ensures ShortLines(tail)
  {
    forall i | 0 <= i < |pb| ensures |pb[i]| <= MAX_BUFFER {
      assert pb[i] == (la + pb)[|la| + i];
    }
  }

  function Feed(wire: Wire, h: Host, chunks: seq<Bytes>): Host {
    if chunks == [] then h
    else OnData(wire, Feed(wire, h, chunks[..|chunks| - 1]), chunks[|chunks| - 1])
  }

  lemma AlikeOnData(wire: Wire, x: Host, y: Host, chunk: Bytes)
    requires Alike(x, y)
    ensures Alike(OnData(wire, x, chunk), OnData(wire, y, chunk))
  {
  }

  lemma AlikeTwice(x: Host, y: Host, z: Host)
    requires Alike(x, y) && Alike(y, z)
    ensures Alike(x, z)
  {
  }

  /** However a stream is cut into chunks, they do what the stream as one chunk does. */
  lemma {:induction false} ChunksDoNotMatter(wire: Wire, h: Host, chunks: seq<Bytes>)
    requires wire.Streams() && h.fatal.None? && chunks != []
    requires ShortLines(h.buffer + wire.text(h.decoder, Layout.Concat(chunks)))
    ensures Alike(Feed(wire, h, chunks), OnData(wire, h, Layout.Concat(chunks)))
    decreases |chunks|
  {
    hide OnData, ShortLines;
    var front, last := chunks[..|chunks| - 1], chunks[|chunks| - 1];
    var before := Layout.Concat(front);
    assert Layout.Concat(chunks) == before + last;
    if front == [] {
      assert before + last == last;
    } else {
      var text := h.buffer + wire.text(h.decoder, before);
      assert h.buffer + wire.text(h.decoder, before + last) == text + wire.text(wire.next(h.decoder, before), last);
      ShortPrefix(text, wire.text(wire.next(h.decoder, before), last));
      ChunksDoNotMatter(wire, h, front);
      AlikeOnData(wire, Feed(wire, h, front), OnData(wire, h, before), last);
      TwoChunks(wire, h, before, last);
      AlikeTwice(Feed(wire, h, chunks), OnData(wire, OnData(wire, h, before), last), OnData(wire, h, before + last));
    }
  }

  /**
   With lines that fit the buffer, any chunking gives the frames, outcomes and failure that
   taking the stream line by line gives.
   */
  lemma FramingIndependence(wire: Wire, h: Host, chunks: seq<Bytes>)
    requires wire.Streams() && h.fatal.None? && chunks != []
    requires ShortLines(h.buffer + wire.text(h.decoder, Layout.Concat(chunks)))
    ensures var lines := Split(h.buffer + wire.text(h.decoder, Layout.Concat(chunks)), NEWLINE);
            var r, whole := Feed(wire, h, chunks), TakeLines(wire, h, lines[..|lines| - 1]);
            r.frames == whole.frames && r.told == whole.told && r.fatal == whole.fatal && r.waiters == whole.waiters
  {
    ChunksDoNotMatter(wire, h, chunks);
    OnDataIsLines(wire, h, Layout.Concat(chunks));
  }

  function Widened(b: Bytes): (t: Text)
    ensures |t| == |b|
  {
    seq(|b|, i requires 0 <= i < |b| => b[i])
  }

  /** One unit for each byte, and nothing but blank lines. */
  function PlainWire(): Wire {
    Wire((s: Bytes, b: Bytes) => s, (s: Bytes, b: Bytes) => Widened(b), (t: Text) => true, (t: Text) => None, 0)
  }

  lemma PlainWireStreams()
    ensures PlainWire().Streams()
  {
    forall x: Bytes, y: Bytes ensures Widened(x + y) == Widened(x) + Widened(y) {
    }
  }

  lemma FedAlone(line: Bytes)
    requires |line| > MAX_BUFFER && 0x0a !in line
    ensures OnData(PlainWire(), Fresh([]), line).fatal == Some(OverlongLine)
  {
    hide Split;
    var text := Widened(line);
    SplitPlain(text, NEWLINE);
    assert [] + text == text;
    RejectAllRefed(Fresh([]).(fatal := Some(OverlongLine), buffer := []), [], OverlongLine, []);
  }

  lemma FedWithNewline(line: Bytes)
    requires 0x0a !in line
    ensures OnData(PlainWire(), Fresh([]), line + [0x0a]).fatal.None?
  {
    hide Split;
    var text := Widened(line);
    assert [] + Widened(line + [0x0a]) == text + [NEWLINE] + [];
    SplitCut(text, [], NEWLINE);
    SplitPlain([], NEWLINE);
    var lines: seq<Text>, none: Text := [text], [];
    var parts := Split([] + Widened(line + [0x0a]), NEWLINE);
    assert parts == lines + [none] && parts[1] == none && parts[..1] == lines;
    var fed := Fresh([]);
    assert TakeLine(PlainWire(), fed, text) == fed;
    assert lines[1..] == [] && TakeLines(PlainWire(), fed, lines) == fed;
    assert OnData(PlainWire(), fed, line + [0x0a]) == TakeLines(PlainWire(), fed, parts[..|parts| - 1]);
  }

  /** A line longer than the buffer is taken if its end comes in the same chunk, and fatal if not. */
  lemma LongLinesDependOnChunks(line: Bytes)
    requires |line| > 0x1_0000 && 0x0a !in line
    ensures PlainWire().Streams()
    ensures Feed(PlainWire(), Fresh([]), [line + [0x0a]]).fatal.None?
    ensures Feed(PlainWire(), Fresh([]), [line, [0x0a]]).fatal == Some(OverlongLine)
  {
    PlainWireStreams();
    FedAlone(line);
    FedWithNewline(line);
    assert [line, [0x0a]][..1] == [line] && [line][..0] == [];
    assert [line + [0x0a]][..0] == [];
  }
}
