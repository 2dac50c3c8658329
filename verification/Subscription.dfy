/** A subscription and the last message that it received, which it keeps for its acknowledgement. */
module Subscription {
  import opened Wrappers
  import opened SlicedWait

  type Message = nat

  /** The message that is kept, and how often each message was destroyed. */
  datatype Holdings = Holdings(last: Option<Message>, destroyed: multiset<Message>)

  function Held(m: Option<Message>): multiset<Message> {
    if m.Some? then multiset{m.value} else multiset{}
  }

  function Keep(h: Holdings, m: Option<Message>): Holdings {
    Holdings(m, h.destroyed + Held(h.last))
  }

  /** A batch of which the first n messages were converted, the last of them perhaps not: it is kept, and all others
      are destroyed. */
  function KeepBatch(h: Holdings, msgs: seq<Message>, n: nat): Holdings
    requires n <= |msgs|
  {
    if n == 0 then h.(destroyed := h.destroyed + multiset(msgs))
    else Holdings(Some(msgs[n - 1]), h.destroyed + Held(h.last) + multiset(msgs[..n - 1]) + multiset(msgs[n..]))
  }

  /** The answers to a wait for one message: a message that can or cannot be converted, the end of the subscription,
      or an error. */
  datatype NextAnswer = Arrived(msg: Message, converts: bool) | NoMore | NextFails

  /** The answers to a fetch; the conversion of one message of a batch may fail. */
  datatype FetchAnswer = Batch(msgs: seq<Message>, failsAt: Option<nat>) | FetchFails

  datatype Result = Messages(msgs: seq<Message>) | Nothing | Raised | StillWaiting

  /** The messages of a batch that are looked at. */
  function Processed(msgs: seq<Message>, failsAt: Option<nat>): (n: nat)
    ensures n <= |msgs|
  {
    if failsAt.Some? && failsAt.value < |msgs| then failsAt.value + 1 else |msgs|
  }

  function AfterNext(h: Holdings, end: End<NextAnswer>): Holdings {
    if end.Ended? && end.value.Arrived? then Keep(h, Some(end.value.msg)) else h
  }

  function AfterFetch(h: Holdings, end: End<FetchAnswer>): Holdings {
    if end.Ended? && end.value.Batch? then
      KeepBatch(h, end.value.msgs, Processed(end.value.msgs, end.value.failsAt))
    else h
  }

  /** The list of a fetch, from which the first n messages have been taken. */
  ghost predicate Left(list: array<Option<Message>>, msgs: seq<Message>, n: nat)
    reads list
  {
    list.Length == |msgs| && forall i :: 0 <= i < |msgs| ==> list[i] == if i < n then None else Some(msgs[i])
  }

  /** The first i messages of a batch have been taken from the list. */
  ghost predicate Kept(h: Holdings, now: Holdings, msgs: seq<Message>, i: nat)
    requires i <= |msgs|
  {
    if i == 0 then now == h
    else now == Holdings(Some(msgs[i - 1]), h.destroyed + Held(h.last) + multiset(msgs[..i - 1]))
  }

  lemma OneMoreKept(h: Holdings, now: Holdings, msgs: seq<Message>, i: nat)
    requires i < |msgs| && Kept(h, now, msgs, i)
    ensures Kept(h, Keep(now, Some(msgs[i])), msgs, i + 1)
  {
    if i > 0 {
      assert msgs[..i] == msgs[..i - 1] + [msgs[i - 1]];
    }
  }

  lemma NoneKept(h: Holdings, msgs: seq<Message>)
    ensures Kept(h, h, msgs, 0)
  {
  }

  lemma BatchEnds(h: Holdings, now: Holdings, msgs: seq<Message>, n: nat)
    requires n <= |msgs| && Kept(h, now, msgs, n)
    ensures KeepBatch(h, msgs, n) == now.(destroyed := now.destroyed + multiset(msgs[n..]))
  {
    assert msgs[0..] == msgs;
  }

  /** What turn k does to a call of nextMsg that it comes to: the result, and what is kept and destroyed then. */
  predicate NextAt(turns: seq<Turn<NextAnswer>>, k: nat, timeout: int, poll: int, r: Result, asked: nat,
                   before: Holdings, now: Holdings)
    requires k <= |turns|
  {
    if k == |turns| then r == StillWaiting && now == before
    else if turns[k].cancelled then r == Raised && now == before && asked == k
    else
      match turns[k].answer
      case RanOut => timeout >= 0 && poll * (k + 1) >= timeout ==> r == Nothing && now == before && asked == k + 1
      case Answered(Arrived(m, converts)) =>
        r == (if converts then Messages([m]) else Raised) && asked == k + 1 &&
        now == Holdings(Some(m), before.destroyed + Held(before.last))
      case Answered(NoMore) => r == Nothing && now == before
      case Answered(NextFails) => r == Raised && now == before
  }

  /** The same for a call of fetch; of a batch, the messages up to the first that cannot be converted are looked at. */
  predicate FetchAt(turns: seq<Turn<FetchAnswer>>, k: nat, timeout: int, poll: int, r: Result, asked: nat,
                    before: Holdings, now: Holdings)
    requires k <= |turns|
  {
    if k == |turns| then r == StillWaiting && now == before
    else if turns[k].cancelled then r == Raised && now == before && asked == k
    else
      match turns[k].answer
      case RanOut => poll * (k + 1) >= timeout ==> r == Messages([]) && now == before && asked == k + 1
      case Answered(FetchFails) => r == Raised && now == before
      case Answered(Batch(msgs, failsAt)) =>
        var fails := failsAt.Some? && failsAt.value < |msgs|;
        r == (if fails then Raised else Messages(msgs)) && asked == k + 1 &&
        if msgs == [] then now == before
        else
          now.last == Some(if fails then msgs[failsAt.value] else msgs[|msgs| - 1]) &&
          now.destroyed + Held(now.last) == before.destroyed + Held(before.last) + multiset(msgs)
  }

  function NextResult(end: End<NextAnswer>): Result {
    match end
    case Cancelled => Raised
    case OutOfTime => Nothing
    case Unobserved => StillWaiting
    case Ended(a) =>
      match a
      case Arrived(m, converts) => if converts then Messages([m]) else Raised
      case NoMore => Nothing
      case NextFails => Raised
  }

  lemma NextTurn(turns: seq<Turn<NextAnswer>>, k: nat, timeout: int, poll: int, end: End<NextAnswer>, r: Result,
                 asked: nat, before: Holdings, now: Holdings)
    requires k <= |turns| && EndsAt(turns, k, timeout, timeout < 0, poll, end, asked)
    requires now == AfterNext(before, end) && r == NextResult(end)
    ensures NextAt(turns, k, timeout, poll, r, asked, before, now)
  {
  }

  function FetchResult(end: End<FetchAnswer>): Result {
    match end
    case Cancelled => Raised
    case OutOfTime => Messages([])
    case Unobserved => StillWaiting
    case Ended(a) =>
      match a
      case Batch(msgs, failsAt) => if failsAt.Some? && failsAt.value < |msgs| then Raised else Messages(msgs)
      case FetchFails => Raised
  }

  lemma BatchConserved(h: Holdings, msgs: seq<Message>, n: nat)
    requires n <= |msgs| && (n == 0 ==> msgs == [])
    ensures var t := KeepBatch(h, msgs, n);
            t.destroyed + Held(t.last) == h.destroyed + Held(h.last) + multiset(msgs)
  {
    if n > 0 {
      assert msgs == msgs[..n - 1] + [msgs[n - 1]] + msgs[n..];
    }
  }

  lemma LastOfBatch(h: Holdings, msgs: seq<Message>, n: nat)
    requires n <= |msgs|
    ensures n > 0 ==> KeepBatch(h, msgs, n).last == Some(msgs[n - 1])
    ensures msgs == [] ==> KeepBatch(h, msgs, n) == h
  {
  }

  lemma FetchTurn(turns: seq<Turn<FetchAnswer>>, k: nat, timeout: int, poll: int, end: End<FetchAnswer>, r: Result,
                  asked: nat, before: Holdings, now: Holdings)
    requires k <= |turns| && EndsAt(turns, k, timeout, false, poll, end, asked)
    requires now == AfterFetch(before, end) && r == FetchResult(end)
    ensures FetchAt(turns, k, timeout, poll, r, asked, before, now)
  {
    hide KeepBatch;
    if end.Ended? && end.value.Batch? {
      var msgs, n := end.value.msgs, Processed(end.value.msgs, end.value.failsAt);
      BatchConserved(before, msgs, n);
      LastOfBatch(before, msgs, n);
    }
  }

  class Subscription {
    var lastMsg: Option<Message>
    //! the messages that natsMsg_Destroy() was called for
    ghost var destroyed: multiset<Message>

    constructor ()
      ensures View() == Holdings(None, multiset{})
    {
      lastMsg, destroyed := None, multiset{};
    }

    ghost function View(): Holdings
      reads this
    {
      Holdings(lastMsg, destroyed)
    }

    method SetLastMsg(m: Option<Message>)
      modifies this
      ensures View() == Keep(old(View()), m)
    {
      if lastMsg.Some? {
        destroyed := destroyed + multiset{lastMsg.value};
      }
      lastMsg := m;
    }

    method NextMsg(timeout: int, poll: int, cancelledFirst: bool, turns: seq<Turn<NextAnswer>>)
      returns (r: Result, asked: seq<int>, end: End<NextAnswer>)
      requires poll > 0
      modifies this
      ensures end == if cancelledFirst then Cancelled
                     else OneWait(turns, if timeout < 0 then None else Some(|Slices(timeout, poll)|))
      ensures AskedFor(asked, timeout, timeout < 0, poll, if cancelledFirst then 0 else Asked(turns))
      ensures View() == AfterNext(old(View()), end)
      ensures r == NextResult(end)
      ensures cancelledFirst ==> r == Raised && asked == [] && View() == old(View())
      ensures !cancelledFirst ==>
                forall k: nat :: Comes(turns, k, timeout, timeout < 0, poll) ==>
                                   NextAt(turns, k, timeout, poll, r, |asked|, old(View()), View())
    {
      hide OneWait, Slices, Asked, AskedFor, EndsAt, NextAt;
      end, asked := WaitInSlices(timeout, timeout < 0, poll, cancelledFirst, turns);
      match end {
        case Cancelled => r := Raised;
        case OutOfTime => r := Nothing;
        case Unobserved => r := StillWaiting;
        case Ended(a) =>
          match a {
            case NoMore => r := Nothing;
            case NextFails => r := Raised;
            case Arrived(m, converts) =>
              if lastMsg.Some? {
                destroyed := destroyed + multiset{lastMsg.value};
              }
              lastMsg := Some(m);
              r := if converts then Messages([m]) else Raised;
          }
      }
      if !cancelledFirst {
        forall k: nat | Comes(turns, k, timeout, timeout < 0, poll)
          ensures NextAt(turns, k, timeout, poll, r, |asked|, old(View()), View())
        {
          NextTurn(turns, k, timeout, poll, end, r, |asked|, old(View()), View());
        }
      }
    }

    /** Destroys what is left in the list of a fetch. */
    method DestroyList(list: array<Option<Message>>, n: nat, ghost msgs: seq<Message>)
      requires n <= |msgs| && Left(list, msgs, n)
      modifies this`destroyed
      ensures destroyed == old(destroyed) + multiset(msgs[n..])
    {
      for i := 0 to list.Length
        invariant destroyed == old(destroyed) + multiset(msgs[n..if i < n then n else i])
      {
        if list[i].Some? {
          destroyed := destroyed + multiset{list[i].value};
          assert msgs[n..i + 1] == msgs[n..i] + [msgs[i]];
        }
      }
      assert msgs[n..|msgs|] == msgs[n..];
    }

    /** Moves one message from the list to lastMsg. */
    method TakeNext(list: array<Option<Message>>, i: nat, ghost h: Holdings, ghost msgs: seq<Message>)
      requires i < |msgs| && Left(list, msgs, i) && Kept(h, View(), msgs, i)
      modifies this, list
      ensures Left(list, msgs, i + 1) && Kept(h, View(), msgs, i + 1)
    {
      hide Kept, Keep;
      OneMoreKept(h, View(), msgs, i);
      SetLastMsg(list[i]);
      list[i] := None;
    }

    /** The messages of a batch: each is moved from the list to lastMsg and converted. */
    method TakeBatch(msgs: seq<Message>, failsAt: Option<nat>) returns (r: Result)
      modifies this
      ensures View() == KeepBatch(old(View()), msgs, Processed(msgs, failsAt))
      ensures r == if failsAt.Some? && failsAt.value < |msgs| then Raised else Messages(msgs)
    {
      hide Kept, KeepBatch, Keep;
      var list := new Option<Message>[|msgs|](i requires 0 <= i < |msgs| => Some(msgs[i]));
      var result: seq<Message> := [];
      ghost var h := View();
      NoneKept(h, msgs);
      for i := 0 to |msgs|
        invariant Left(list, msgs, i) && Kept(h, View(), msgs, i)
        invariant result == msgs[..i]
        invariant failsAt.None? || failsAt.value >= i
      {
        TakeNext(list, i, h, msgs);
        if failsAt == Some(i) {
          BatchEnds(h, View(), msgs, i + 1);
          DestroyList(list, i + 1, msgs);
          return Raised;
        }
        result := result + [msgs[i]];
      }
      BatchEnds(h, View(), msgs, |msgs|);
      DestroyList(list, |msgs|, msgs);
      r := Messages(result);
    }

    method Fetch(timeout: int, poll: int, cancelledFirst: bool, turns: seq<Turn<FetchAnswer>>)
      returns (r: Result, asked: seq<int>, end: End<FetchAnswer>)
      requires poll > 0
      modifies this
      ensures end == if cancelledFirst then Cancelled else OneWait(turns, Some(|Slices(timeout, poll)|))
      ensures AskedFor(asked, timeout, false, poll, if cancelledFirst then 0 else Asked(turns))
      ensures View() == AfterFetch(old(View()), end)
      ensures r == FetchResult(end)
      ensures cancelledFirst ==> r == Raised && asked == [] && View() == old(View())
      ensures !cancelledFirst ==>
                forall k: nat :: Comes(turns, k, timeout, false, poll) ==>
                                   FetchAt(turns, k, timeout, poll, r, |asked|, old(View()), View())
    {
      hide OneWait, Slices, Asked, AskedFor, KeepBatch, EndsAt, FetchAt;
      end, asked := WaitInSlices(timeout, false, poll, cancelledFirst, turns);
      match end {
        case Cancelled => r := Raised;
        case OutOfTime => r := Messages([]);
        case Unobserved => r := StillWaiting;
        case Ended(a) =>
          match a {
            case FetchFails => r := Raised;
            case Batch(msgs, failsAt) => r := TakeBatch(msgs, failsAt);
          }
      }
      if !cancelledFirst {
        forall k: nat | Comes(turns, k, timeout, false, poll)
          ensures FetchAt(turns, k, timeout, poll, r, |asked|, old(View()), View())
        {
          FetchTurn(turns, k, timeout, poll, end, r, |asked|, old(View()), View());
        }
      }
    }

    /** The destructor. */
    method Destroy()
      modifies this
      ensures View() == Keep(old(View()), None)
    {
      if lastMsg.Some? {
        destroyed := destroyed + multiset{lastMsg.value};
        lastMsg := None;
      }
    }
  }

  // ---------- Whole lives of a subscription ----------

  datatype Use = NextEnded(next: End<NextAnswer>) | FetchEnded(fetch: End<FetchAnswer>) | Replace(m: Option<Message>)

  function After(h: Holdings, use: Use): Holdings {
    match use
    case NextEnded(end) => AfterNext(h, end)
    case FetchEnded(end) => AfterFetch(h, end)
    case Replace(m) => Keep(h, m)
  }

  /** The messages that a use hands to the subscription, in order. */
  function Received(use: Use): seq<Message> {
    match use
    case NextEnded(end) => if end.Ended? && end.value.Arrived? then [end.value.msg] else []
    case FetchEnded(end) => if end.Ended? && end.value.Batch? then end.value.msgs else []
    case Replace(m) => if m.Some? then [m.value] else []
  }

  function AfterAll(h: Holdings, uses: seq<Use>): Holdings
    decreases |uses|
  {
    if uses == [] then h else AfterAll(After(h, uses[0]), uses[1..])
  }

  function AllReceived(uses: seq<Use>): seq<Message> {
    if uses == [] then [] else Received(uses[0]) + AllReceived(uses[1..])
  }

  lemma UseConserves(h: Holdings, use: Use)
    ensures var t := After(h, use);
            t.destroyed + Held(t.last) == h.destroyed + Held(h.last) + multiset(Received(use))
  {
    hide KeepBatch;
    match use {
      case NextEnded(_) =>
      case Replace(_) =>
      case FetchEnded(end) =>
        if end.Ended? && end.value.Batch? {
          BatchConserved(h, end.value.msgs, Processed(end.value.msgs, end.value.failsAt));
        }
    }
  }

  lemma {:induction false} UsesConserve(h: Holdings, uses: seq<Use>)
    ensures var t := AfterAll(h, uses);
            t.destroyed + Held(t.last) == h.destroyed + Held(h.last) + multiset(AllReceived(uses))
    decreases |uses|
  {
    hide After, Received;
    if uses == [] {
    } else {
      UseConserves(h, uses[0]);
      UsesConserve(After(h, uses[0]), uses[1..]);
    }
  }

  /** In every life of a subscription, a failed conversion in the middle of a batch included, each message is destroyed
      as often as it was received once the subscription is destroyed, and never more often before. */
  lemma EveryMessageDestroyed(uses: seq<Use>)
    ensures Keep(AfterAll(Holdings(None, multiset{}), uses), None).destroyed == multiset(AllReceived(uses))
    ensures AfterAll(Holdings(None, multiset{}), uses).destroyed <= multiset(AllReceived(uses))
  {
    UsesConserve(Holdings(None, multiset{}), uses);
  }

  /** After a use that received messages and did not fail, the message kept is the last one received; after one that
      failed in a batch, it is the message that could not be converted. */
  lemma LastIsKept(h: Holdings, use: Use)
    ensures use.Replace? || Received(use) == [] || After(h, use).last.Some?
    ensures use.NextEnded? && Received(use) != [] ==> After(h, use).last == Some(Received(use)[|Received(use)| - 1])
    ensures use.FetchEnded? && Received(use) != [] ==>
              var failsAt := use.fetch.value.failsAt; var msgs := Received(use);
              After(h, use).last ==
              Some(if failsAt.Some? && failsAt.value < |msgs| then msgs[failsAt.value] else msgs[|msgs| - 1])
  {
  }
}
