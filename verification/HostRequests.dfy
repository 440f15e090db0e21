/** What calls of the driver do, told by the events they stand for and by the answers they get. */
module HostRequests {
  import opened Prelude
  import opened Strings
  import opened CanonicalJson
  import opened ChildHost
  import opened FramePump

  // ----- which events leave the questions alone

  lemma {:induction false} RejectAllAsks(h: Host, ws: seq<Waiter>, e: Failure)
    ensures RejectAll(h, ws, e).asked == h.asked
    decreases |ws|
  {
    if ws != [] {
      RejectAllAsks(Tell(h, ws[|ws| - 1].ticket, Rejected(e)), ws[..|ws| - 1], e);
    }
  }

  lemma FailAllAsks(h: Host, e: Failure)
    ensures FailAll(h, e).asked == h.asked
  {
    if h.fatal.None? {
      RejectAllAsks(h.(fatal := Some(e), buffer := [], waiters := []), h.waiters, e);
    }
  }

  lemma {:induction false} WakeAsks(h: Host, f: Json, i: nat)
    requires i <= |h.waiters|
    ensures Wake(h, f, i).asked == h.asked
    decreases i
  {
    if i > 0 {
      var w := h.waiters[i - 1];
      FailAllAsks(h, PredicateThrew);
      WakeAsks(h, f, i - 1);
      WakeAsks(Tell(h.(waiters := Without(h.waiters, i - 1)), w.ticket, Resolved(f)), f, i - 1);
    }
  }

  lemma {:induction false} TakeLinesAsks(wire: Wire, h: Host, lines: seq<Text>)
    ensures TakeLines(wire, h, lines).asked == h.asked
    decreases |lines|
  {
    hide FailAll, Wake;
    if lines != [] && h.fatal.None? {
      TakeLineAsks(wire, h, lines[0]);
      TakeLinesAsks(wire, TakeLine(wire, h, lines[0]), lines[1..]);
    }
  }

  lemma TakeLineAsks(wire: Wire, h: Host, line: Text)
    ensures TakeLine(wire, h, line).asked == h.asked
  {
    hide FailAll, Wake;
    FailAllAsks(h, BadJson);
    FailAllAsks(h, TooManyFrames);
    if wire.parse(line).Some? {
      var f := wire.parse(line).value;
      WakeAsks(h.(frames := h.frames + [f]), f, |h.waiters|);
    }
  }

  lemma StepAsks(wire: Wire, h: Host, e: Event)
    ensures Step(wire, h, e).asked == h.asked + if e.Asked? then [e.wants] else []
  {
    hide FailAll, TakeLines, Search, Split;
    match e
    case Data(chunk) =>
      if h.fatal.None? {
        var parts := Split(h.buffer + wire.text(h.decoder, chunk), NEWLINE);
        var fed := h.(buffer := parts[|parts| - 1], decoder := wire.next(h.decoder, chunk));
        FailAllAsks(fed, OverlongLine);
        TakeLinesAsks(wire, fed, parts[..|parts| - 1]);
      }
    case Asked(_) =>
    case GivenUp(_, _) =>
    case Failed(error) => FailAllAsks(h, error);
  }

  // ----- calls as events

  /** The events that a call stands for, made when this many questions were asked and this is the next id. */
  ghost function EventsOf(call: Call, asked: nat, id: nat): seq<Event> {
    match call
    case Other(e) => [e]
    case Requested(name, written) =>
      [Asked(ResponseTo(id, name))] + if written then [] else [GivenUp(asked, WriteFailed)]
  }

  ghost function AllEvents(calls: seq<Call>, asked: nat, id: nat): seq<Event>
    decreases |calls|
  {
    if calls == [] then []
    else
      var first := calls[0];
      EventsOf(first, asked, id)
      + AllEvents(calls[1..], if first.Requested? || first.event.Asked? then asked + 1 else asked,
                  if first.Requested? then id + 1 else id)
  }

  /** The names asked for, in order. */
  ghost function NamesOf(calls: seq<Call>): seq<Text>
    decreases |calls|
  {
    if calls == [] then [] else (if calls[0].Requested? then [calls[0].name] else []) + NamesOf(calls[1..])
  }

  lemma {:induction false} RunConcat(wire: Wire, h: Host, a: seq<Event>, b: seq<Event>)
    ensures Run(wire, h, a + b) == Run(wire, Run(wire, h, a), b)
    decreases |a|
  {
    hide Step;
    if a == [] {
      assert a + b == b;
    } else {
      assert (a + b)[1..] == a[1..] + b;
      RunConcat(wire, Step(wire, h, a[0]), a[1..], b);
    }
  }

  lemma OneEvent(wire: Wire, h: Host, e: Event)
    ensures Run(wire, h, [e]) == Step(wire, h, e)
  {
    hide Step;
    assert [e][1..] == [];
  }

  lemma CallIsEvents(wire: Wire, c: Caller, call: Call)
    ensures var next := CallStep(wire, c, call);
            && next.host == Run(wire, c.host, EventsOf(call, |c.host.asked|, c.nextId))
            && |next.host.asked| == |c.host.asked| + (if call.Requested? || call.event.Asked? then 1 else 0)
            && next.nextId == (if call.Requested? then c.nextId + 1 else c.nextId)
  {
    hide Ask, GiveUp, OnData, FailAll, ResponseTo;
    var t := |c.host.asked|;
    match call
    case Other(e) =>
      StepAsks(wire, c.host, e);
      OneEvent(wire, c.host, e);
    case Requested(name, written) =>
      var ask := Asked(ResponseTo(c.nextId, name));
      var waiting := Step(wire, c.host, ask);
      StepAsks(wire, c.host, ask);
      StepAsks(wire, waiting, GivenUp(t, WriteFailed));
      OneEvent(wire, c.host, ask);
      if !written {
        var giveUp := GivenUp(t, WriteFailed);
        RunConcat(wire, c.host, [ask], [giveUp]);
        OneEvent(wire, waiting, giveUp);
      } else {
        assert [ask] + [] == [ask];
      }
  }

  /**
   A run of calls does to the driver what the events do that the calls stand for: a request asks for the frame of
   its own id, and is given up at once if it could not be written.
   */
  lemma {:induction false} CallsAreEvents(wire: Wire, c: Caller, calls: seq<Call>)
    ensures CallAll(wire, c, calls).host == Run(wire, c.host, AllEvents(calls, |c.host.asked|, c.nextId))
    decreases |calls|
  {
    hide CallStep, EventsOf;
    if calls != [] {
      var next := CallStep(wire, c, calls[0]);
      CallIsEvents(wire, c, calls[0]);
      CallsAreEvents(wire, next, calls[1..]);
      RunConcat(wire, c.host, EventsOf(calls[0], |c.host.asked|, c.nextId),
                AllEvents(calls[1..], |next.host.asked|, next.nextId));
    }
  }

  ghost predicate MadeAs(requests: seq<Request>, k: nat, id: nat, name: Text) {
    k < |requests| && requests[k].id == id && requests[k].name == name
  }

  lemma {:induction false} RequestsFollow(wire: Wire, c: Caller, calls: seq<Call>)
    ensures var r, names := CallAll(wire, c, calls), NamesOf(calls);
            && |r.requests| == |c.requests| + |names| && r.nextId == c.nextId + |names|
            && r.requests[..|c.requests|] == c.requests
            && forall k :: 0 <= k < |names| ==> MadeAs(r.requests, |c.requests| + k, c.nextId + k, names[k])
    decreases |calls|
  {
    hide Step, Ask, GiveUp, ResponseTo;
    if calls != [] {
      var next, r, n := CallStep(wire, c, calls[0]), CallAll(wire, c, calls), |c.requests|;
      var names, rest := NamesOf(calls), NamesOf(calls[1..]);
      RequestsFollow(wire, next, calls[1..]);
      assert next.requests[..n] == c.requests;
      assert r.requests[..n] == r.requests[..|next.requests|][..n];
      if calls[0].Requested? {
        assert r.requests[n] == r.requests[..|next.requests|][n] == next.requests[n];
        forall k | 1 <= k < |names| ensures MadeAs(r.requests, n + k, c.nextId + k, names[k]) {
          assert MadeAs(r.requests, |next.requests| + (k - 1), next.nextId + (k - 1), rest[k - 1]);
        }
      } else {
        assert names == rest && next.requests == c.requests && next.nextId == c.nextId;
      }
    }
  }

  /** The requests of a driver are those that were made, in order, with the ids 1, 2, 3 and so on. */
  lemma RequestsAreNumbered(wire: Wire, decoder: Bytes, calls: seq<Call>)
    ensures var requests, names := CallAll(wire, FreshCaller(decoder), calls).requests, NamesOf(calls);
            && |requests| == |names|
            && forall k :: 0 <= k < |names| ==> requests[k].id == k + 1 && requests[k].name == names[k]
  {
    hide NamesOf, CallAll;
    var c := FreshCaller(decoder);
    RequestsFollow(wire, c, calls);
    forall k | 0 <= k < |NamesOf(calls)|
      ensures CallAll(wire, c, calls).requests[k].id == k + 1
      ensures CallAll(wire, c, calls).requests[k].name == NamesOf(calls)[k]
    {
      assert MadeAs(CallAll(wire, c, calls).requests, |c.requests| + k, c.nextId + k, NamesOf(calls)[k]);
    }
  }

  // ----- one request

  /**
   A request is told the driver's failure if there is one, else the first retained frame that answers it, else
   that it could not be written if so; otherwise it waits.  Nobody else is told anything.
   */
  lemma SendAnswers(wire: Wire, c: Caller, name: Text, written: bool)
    requires Inv(wire, c.host)
    ensures var h, r, t := c.host, Send(c, name, written).host, |c.host.asked|;
            var found := Search(h.frames, ResponseTo(c.nextId, name));
            && |r.told| == t + 1 && r.told[..t] == h.told && r.frames == h.frames && r.fatal == h.fatal
            && (Waiting(r, t) <==> h.fatal.None? && found.None? && written)
            && r.told[t] == if h.fatal.Some? then [Rejected(h.fatal.value)]
                            else if found.Some? then [found.value]
                            else if written then [] else [Rejected(WriteFailed)]
  {
    hide Ask, GiveUp, ResponseTo, Search, Waiting;
    var h, wants, t := c.host, ResponseTo(c.nextId, name), |c.host.asked|;
    AskAnswers(h, wants);
    var waiting := Ask(h, wants);
    if !written {
      AskKeeps(wire, h, wants);
      GiveUpTells(waiting, t, WriteFailed);
      assert Send(c, name, written).host.told[..t] == waiting.told[..t];
    }
  }
}
