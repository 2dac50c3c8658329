/** The exception of the first connection, handed from the thread that dials to the one that created the connection. */
module DialerExceptions {
  import opened Wrappers

  type Exception = nat

  /** The two fields protected by the dialer's mutex, and what became of the exceptions. */
  datatype Slot = Slot(pending: Option<Exception>, initial: bool)
  datatype History = History(slot: Slot, delivered: seq<Exception>, discarded: seq<Exception>)

  function Keep(s: Slot, e: Exception): (Slot, bool) {
    if s.initial && s.pending.None? then (s.(pending := Some(e)), true) else (s, false)
  }

  function Take(s: Slot): (Slot, Option<Exception>) {
    (Slot(None, false), s.pending)
  }

  class Holder {
    var pending: Option<Exception>
    var initial: bool

    constructor ()
      ensures View() == Slot(None, true)
    {
      pending, initial := None, true;
    }

    ghost function View(): Slot
      reads this
    {
      Slot(pending, initial)
    }

    /** An exception raised while a connection was made; it is discarded unless it is kept. */
    method KeepException(e: Exception) returns (kept: bool)
      modifies this
      ensures (View(), kept) == Keep(old(View()), e)
    {
      if initial && pending.None? {
        pending := Some(e);
        return true;
      }
      return false;
    }

    method TakeException() returns (e: Option<Exception>)
      modifies this
      ensures (View(), e) == Take(old(View()))
    {
      initial := false;
      e := pending;
      pending := None;
    }
  }

  /** Any number of dialing threads raise exceptions; the creating thread takes what is pending. */
  datatype Event = Raised(e: Exception) | Taken

  function Next(h: History, event: Event): History {
    match event
    case Raised(e) =>
      var (slot, kept) := Keep(h.slot, e);
      if kept then h.(slot := slot) else h.(discarded := h.discarded + [e])
    case Taken =>
      var (slot, e) := Take(h.slot);
      History(slot, h.delivered + (if e.Some? then [e.value] else []), h.discarded)
  }

  function Run(h: History, events: seq<Event>): History
    decreases |events|
  {
    if events == [] then h else Run(Next(h, events[0]), events[1..])
  }

  function AllRaised(events: seq<Event>): multiset<Exception> {
    if events == [] then multiset{}
    else (if events[0].Raised? then multiset{events[0].e} else multiset{}) + AllRaised(events[1..])
  }

  /** The first exception that is raised before anything is taken. */
  function FirstRaised(events: seq<Event>): Option<Exception> {
    if events == [] || events[0].Taken? then None else Some(events[0].e)
  }

  function TakenIn(events: seq<Event>): bool {
    exists i :: 0 <= i < |events| && events[i].Taken?
  }

  function AsSeq(e: Option<Exception>): seq<Exception> {
    if e.Some? then [e.value] else []
  }

  /** Where the exceptions are that were raised. */
  function Everything(h: History): multiset<Exception> {
    multiset(h.delivered) + multiset(AsSeq(h.slot.pending)) + multiset(h.discarded)
  }

  lemma OneRaised(event: Event)
    ensures AllRaised([event]) == if event.Raised? then multiset{event.e} else multiset{}
  {
    assert [event][1..] == [];
  }

  lemma NothingLostByEvent(h: History, event: Event)
    ensures Everything(Next(h, event)) == Everything(h) + AllRaised([event])
  {
    assert [event][1..] == [];
    OneRaised(event);
  }

  /** Every exception is delivered, pending or discarded, each time that it was raised. */
  lemma {:induction false} NothingLost(h: History, events: seq<Event>)
    ensures Everything(Run(h, events)) == Everything(h) + AllRaised(events)
    decreases |events|
  {
    hide Next, Everything;
    if events == [] {
    } else {
      NothingLostByEvent(h, events[0]);
      OneRaised(events[0]);
      NothingLost(Next(h, events[0]), events[1..]);
    }
  }

  /** After the exception was taken, nothing more is kept or delivered. */
  lemma {:induction false} NothingAfterTake(h: History, events: seq<Event>)
    requires h.slot == Slot(None, false)
    ensures Run(h, events).slot == h.slot && Run(h, events).delivered == h.delivered
    decreases |events|
  {
    if events == [] {
    } else {
      assert h.delivered + [] == h.delivered;
      NothingAfterTake(Next(h, events[0]), events[1..]);
    }
  }

  lemma TakenLater(events: seq<Event>)
    requires events != [] && events[0].Raised?
    ensures TakenIn(events) <==> TakenIn(events[1..])
  {
    if TakenIn(events) {
      var i :| 0 <= i < |events| && events[i].Taken?;
      assert events[1..][i - 1].Taken?;
    }
    if TakenIn(events[1..]) {
      var i :| 0 <= i < |events[1..]| && events[1..][i].Taken?;
      assert events[i + 1].Taken?;
    }
  }

  lemma {:induction false} WhilePending(h: History, e: Exception, events: seq<Event>)
    requires h.slot == Slot(Some(e), true) && h.delivered == []
    ensures var t := Run(h, events);
            if TakenIn(events) then t.delivered == [e] && t.slot == Slot(None, false)
            else t.delivered == [] && t.slot == h.slot
    decreases |events|
  {
    if events == [] {
    } else {
      var u := Next(h, events[0]);
      if events[0].Taken? {
        assert u.delivered == [e];
        NothingAfterTake(u, events[1..]);
      } else {
        WhilePending(u, e, events[1..]);
        TakenLater(events);
      }
    }
  }

  /** In every run the first exception raised before the take is delivered, once, by the take; no other is delivered. */
  lemma FirstIsDelivered(events: seq<Event>)
    ensures var t := Run(History(Slot(None, true), [], []), events);
            t.delivered == (if TakenIn(events) then AsSeq(FirstRaised(events)) else []) &&
            t.slot.pending == (if TakenIn(events) then None else FirstRaised(events)) &&
            t.slot.initial == !TakenIn(events)
  {
    var h := History(Slot(None, true), [], []);
    if events != [] {
      var u := Next(h, events[0]);
      if events[0].Taken? {
        NothingAfterTake(u, events[1..]);
      } else {
        WhilePending(u, events[0].e, events[1..]);
        TakenLater(events);
      }
    }
  }
}
