/**
 The driver object: the steps of `ChildHost`, performed in place by the methods that the child process and
 its callers invoke.
 */
module HostProcess {
  import opened Prelude
  import opened Strings
  import opened CanonicalJson
  import H = ChildHost

  class Driver {
    const wire: H.Wire

    var frames: seq<Json>
    var waiters: seq<H.Waiter>
    var buffer: Text
    var fatalError: Option<H.Failure>
    var pumping: bool
    var decoder: Bytes
    var nextId: nat

    /** The predicates of all calls of `createWaiter`, and what each promise was told. */
    var asked: seq<Json -> H.Verdict>
    var told: seq<seq<H.Outcome>>

    /** The calls of `request` so far. */
    ghost var requests: seq<H.Request>

    ghost function State(): H.Host
      reads this
    {
      H.Host(frames, waiters, buffer, fatalError, decoder, asked, told)
    }

    ghost function Caller(): H.Caller
      reads this
    {
      H.Caller(State(), nextId, requests)
    }

    ghost predicate Valid()
      reads this
    {
      H.Inv(wire, State()) && H.Numbered(Caller()) && pumping == fatalError.None?
    }

    constructor (wire: H.Wire)
      ensures Valid() && this.wire == wire && Caller() == H.FreshCaller([])
    {
      this.wire := wire;
      frames, waiters, buffer, fatalError, pumping, decoder := [], [], [], None, true, [];
      nextId, asked, told, requests := 1, [], [], [];
    }

    method FailAll(error: H.Failure)
      requires H.Registered(State())
      modifies this`fatalError, this`pumping, this`buffer, this`waiters, this`told
      ensures State() == H.FailAll(old(State()), error)
      ensures fatalError.Some? && pumping == if old(fatalError).Some? then old(pumping) else false
    {
      hide H.Registered, H.RejectAll;
      if fatalError.Some? {
        return;
      }
      H.StillRegistered(State(), State().(fatal := Some(error), buffer := []));
      fatalError, pumping, buffer := Some(error), false, [];
      while waiters != []
        invariant fatalError == Some(error) && !pumping && buffer == [] && H.Registered(State())
        invariant H.RejectAll(State().(waiters := []), waiters, error) == H.FailAll(old(State()), error)
        decreases |waiters|
      {
        H.RejectLast(State(), error);
        var waiter := waiters[|waiters| - 1];
        waiters := waiters[..|waiters| - 1];
        told := told[waiter.ticket := told[waiter.ticket] + [H.Rejected(error)]];
      }
      H.RejectLast(State(), error);
    }

    method RemoveWaiter(ticket: H.Ticket) returns (removed: bool)
      requires H.Registered(State())
      modifies this`waiters
      ensures removed <==> H.IndexOf(old(waiters), ticket).Some?
      ensures removed ==> waiters == H.Without(old(waiters), H.IndexOf(old(waiters), ticket).value)
      ensures !removed ==> waiters == old(waiters)
    {
      var index := 0;
      while index < |waiters| && waiters[index].ticket != ticket
        invariant index <= |waiters|
        invariant forall i :: 0 <= i < index ==> waiters[i].ticket != ticket
      {
        index := index + 1;
      }
      if index == |waiters| {
        return false;
      }
      waiters := waiters[..index] + waiters[index + 1..];
      return true;
    }

    /** Offer the last frame to the waiters, the last of them first. */
    method Offer(frame: Json)
      requires H.Settled(State()) && fatalError.None? && pumping && H.HeardFrom(State(), |waiters|)
      requires frames != [] && frames[|frames| - 1] == frame
      modifies this`fatalError, this`pumping, this`buffer, this`waiters, this`told
      ensures frames == old(frames) && State() == H.Wake(old(State()), frame, |old(waiters)|)
      ensures pumping == fatalError.None?
    {
      hide H.Settled, H.HeardFrom, H.Wake, H.IndexOf, H.FailAll, H.Registered;
      var i: nat := |waiters|;
      while i > 0
        invariant i <= |waiters| && fatalError.None? && pumping
        invariant H.Settled(State()) && H.HeardFrom(State(), i)
        invariant frames == old(frames) && H.Wake(State(), frame, i) == H.Wake(old(State()), frame, |old(waiters)|)
      {
        i := i - 1;
        var waiter := waiters[i];
        H.WakeOne(State(), frame, i);
        match waiter.wants(frame) {
          case Throws =>
            FailAll(H.PredicateThrew);
            return;
          case NoMatch =>
          case Match =>
            var removed := RemoveWaiter(waiter.ticket);
            if removed {
              told := told[waiter.ticket := told[waiter.ticket] + [H.Resolved(frame)]];
            }
        }
      }
      H.WakeNone(State(), frame);
    }

    /** One line of output. */
    method TakeLine(line: Text)
      requires Valid() && fatalError.None?
      modifies this
      ensures Valid() && Caller() == old(Caller()).(host := H.TakeLine(wire, old(State()), line))
    {
      H.TakeLineKeeps(wire, State(), line);
      H.NumberedStays(Caller(), H.TakeLine(wire, State(), line));
      if wire.blank(line) {
        return;
      }
      var frame := wire.parse(line);
      if frame.None? {
        FailAll(H.BadJson);
        return;
      }
      if |frames| >= wire.cap {
        FailAll(H.TooManyFrames);
        return;
      }
      frames := frames + [frame.value];
      assert H.Settled(State()) by { H.MoreFrames(old(State()), frame.value); }
      Offer(frame.value);
    }

    method OnData(chunk: Bytes)
      requires Valid()
      modifies this
      ensures Valid() && Caller() == H.CallStep(wire, old(Caller()), H.Other(H.Data(chunk)))
    {
      hide H.Numbered, H.Registered, H.ToldOnce, H.ToldRight, H.NoLostWakeup, H.FailAll, H.TakeLine;
      H.OnDataKeeps(wire, State(), chunk);
      H.NumberedStays(Caller(), H.OnData(wire, State(), chunk));
      if !pumping {
        return;
      }
      buffer, decoder := buffer + wire.text(decoder, chunk), wire.next(decoder, chunk);
      var lines := Split(buffer, NEWLINE);
      buffer, lines := lines[|lines| - 1], lines[..|lines| - 1];
      ghost var fed := State();
      H.SameWaiters(old(State()), fed);
      H.NumberedStays(old(Caller()), fed);
      if |buffer| > H.MAX_BUFFER {
        FailAll(H.OverlongLine);
        return;
      }
      for i := 0 to |lines|
        invariant Valid() && nextId == old(nextId) && requests == old(requests)
        invariant H.TakeLines(wire, State(), lines[i..]) == H.TakeLines(wire, fed, lines)
      {
        if fatalError.Some? {
          return;
        }
        assert lines[i..][1..] == lines[i + 1..];
        TakeLine(lines[i]);
      }
    }

    method CreateWaiter(wants: Json -> H.Verdict) returns (ticket: H.Ticket)
      requires Valid()
      modifies this`waiters, this`asked, this`told
      ensures Valid() && State() == H.Ask(old(State()), wants) && ticket == |old(asked)|
    {
      H.AskKeeps(wire, State(), wants);
      H.NumberedStays(Caller(), H.Ask(State(), wants));
      ticket := |asked|;
      asked, told := asked + [wants], told + [[]];
      if fatalError.Some? {
        told := told[ticket := told[ticket] + [H.Rejected(fatalError.value)]];
        return;
      }
      for k := 0 to |frames|
        invariant H.Search(frames, wants) == H.Search(frames[k..], wants)
      {
        assert frames[k..][1..] == frames[k + 1..];
        match wants(frames[k]) {
          case Match =>
            told := told[ticket := told[ticket] + [H.Resolved(frames[k])]];
            return;
          case Throws =>
            told := told[ticket := told[ticket] + [H.Rejected(H.PredicateThrew)]];
            return;
          case NoMatch =>
        }
      }
      waiters := waiters + [H.Waiter(ticket, wants)];
    }

    /** The timeout and the failed write of a waiter. */
    method RejectAndRemove(ticket: H.Ticket, error: H.Failure)
      requires Valid()
      modifies this`waiters, this`told
      ensures Valid() && State() == H.GiveUp(old(State()), ticket, error)
    {
      H.GiveUpKeeps(wire, State(), ticket, error);
      H.NumberedStays(Caller(), H.GiveUp(State(), ticket, error));
      var removed := RemoveWaiter(ticket);
      if removed {
        told := told[ticket := told[ticket] + [H.Rejected(error)]];
      }
    }

    /** A request: its waiter is registered before the frame is written. */
    method Request(name: Text, written: bool) returns (ticket: H.Ticket)
      requires Valid()
      modifies this`waiters, this`asked, this`told, this`nextId, this`requests
      ensures Valid() && Caller() == H.CallStep(wire, old(Caller()), H.Requested(name, written))
      ensures ticket == |old(asked)| && requests == old(requests) + [H.Request(ticket, old(nextId), name)]
    {
      hide H.Numbered, H.Inv, H.Ask, H.GiveUp, H.ResponseTo;
      H.SendKeeps(wire, Caller(), name, written);
      H.NumberedBelow(Caller(), nextId + 1);
      var id := nextId;
      nextId := nextId + 1;
      ticket := CreateWaiter(H.ResponseTo(id, name));
      if !written {
        RejectAndRemove(ticket, H.WriteFailed);
      }
      requests := requests + [H.Request(ticket, id, name)];
    }

    method Close()
      requires Valid()
      modifies this
      ensures Valid() && Caller() == H.CallStep(wire, old(Caller()), H.Other(H.Failed(H.Ended)))
      ensures waiters == [] && forall t :: 0 <= t < |told| ==> |told[t]| == 1
    {
      H.FailAllKeeps(State(), H.Ended);
      H.NumberedStays(Caller(), H.FailAll(State(), H.Ended));
      FailAll(H.Ended);
    }
  }
}
