/** The waits that only have an end, and the wait of a key-value watcher, in which an answer without an entry is waited
    out again without spending any of the timeout. */
module Watcher {
  import opened Wrappers
  import opened SlicedWait

  /** The end of a drain or a flush. */
  datatype WaitResult = Completed | WaitFailed | StillWaiting

  /** What turn k does to the wait that it comes to. */
  predicate CompletesAt(turns: seq<Turn<bool>>, k: nat, timeout: int, poll: int, r: WaitResult, asked: nat)
    requires k <= |turns|
  {
    if k == |turns| then r == StillWaiting
    else if turns[k].cancelled then r == WaitFailed && asked == k
    else
      match turns[k].answer
      case RanOut => poll * (k + 1) >= timeout ==> r == WaitFailed && asked == k + 1
      case Answered(succeeded) => r == (if succeeded then Completed else WaitFailed) && asked == k + 1
  }

  /** Waits for the completion of a drain, or flushes a connection: a timeout is an error. */
  method WaitForCompletion(timeout: int, poll: int, cancelledFirst: bool, turns: seq<Turn<bool>>)
    returns (r: WaitResult, asked: seq<int>)
    requires poll > 0
    ensures r == (if cancelledFirst then WaitFailed
                  else match OneWait(turns, Some(|Slices(timeout, poll)|))
                       case Ended(succeeded) => if succeeded then Completed else WaitFailed
                       case Unobserved => StillWaiting
                       case _ => WaitFailed)
    ensures !cancelledFirst ==>
              forall k: nat :: Comes(turns, k, timeout, false, poll) ==> CompletesAt(turns, k, timeout, poll, r, |asked|)
    ensures AskedFor(asked, timeout, false, poll, if cancelledFirst then 0 else Asked(turns))
  {
    hide OneWait, Slices, Asked, AskedFor;
    var end;
    end, asked := WaitInSlices(timeout, false, poll, cancelledFirst, turns);
    match end {
      case Ended(succeeded) => r := if succeeded then Completed else WaitFailed;
      case Unobserved => r := StillWaiting;
      case _ => r := WaitFailed;
    }
  }

  type Entry = nat

  /** The answers of the C client's watcher; it may answer without an entry. */
  datatype WatchAnswer = Found(entry: Entry) | NoEntry | RunsOut | Fails

  /** One turn of the loop: the answer, and the time after which it comes if its slice does not run out. */
  datatype WatchTurn = WatchTurn(cancelled: bool, answer: WatchAnswer, elapsed: int)

  datatype WatchEnd = Interrupted | Next(entry: Entry) | TimedOut | Raised | NotObserved

  /** A wait from some turn on: its end, the slices that are asked for, and the time that passes. */
  datatype Watched = Watched(end: WatchEnd, asked: seq<int>, passed: int)

  function Longer(slice: int, time: int, w: Watched): Watched {
    Watched(w.end, [slice] + w.asked, time + w.passed)
  }

  function Watch(turns: seq<WatchTurn>, remaining: int, poll: int): Watched
    requires poll > 0
    decreases |turns|
  {
    if turns == [] then Watched(NotObserved, [], 0)
    else if turns[0].cancelled then Watched(Interrupted, [], 0)
    else
      var slice := NextSlice(remaining, poll);
      match turns[0].answer
      case Found(entry) => Watched(Next(entry), [slice], turns[0].elapsed)
      case Fails => Watched(Raised, [slice], turns[0].elapsed)
      case NoEntry => Longer(slice, turns[0].elapsed, Watch(turns[1..], remaining, poll))
      case RunsOut =>
        if remaining - slice <= 0 then Watched(TimedOut, [slice], slice)
        else Longer(slice, slice, Watch(turns[1..], remaining - slice, poll))
  }

  /** A wait as the loop has come to know it, and the rest of it. */
  predicate Continues(whole: Watched, asked: seq<int>, passed: int, rest: Watched) {
    whole == Watched(rest.end, asked + rest.asked, passed + rest.passed)
  }

  // By the turns, one after the other

  /** The number of slices that ran out in the first n turns. */
  function RunOut(turns: seq<WatchTurn>, n: nat): nat
    requires n <= |turns|
  {
    if n == 0 then 0 else (if turns[0].answer.RunsOut? then 1 else 0) + RunOut(turns[1..], n - 1)
  }

  /** Turn k of the loop comes: in the turns before it the thread was not cancelled and there was no entry and no error,
      and the slices that ran out did not use up the timeout. */
  predicate WatchComes(turns: seq<WatchTurn>, k: nat, timeout: int, poll: int) {
    k <= |turns| &&
    (forall j :: 0 <= j < k ==> !turns[j].cancelled && (turns[j].answer.NoEntry? || turns[j].answer.RunsOut?)) &&
    (RunOut(turns, k) == 0 || poll * RunOut(turns, k) < timeout)
  }

  /** What the turn does to the wait. */
  predicate WatchEndsAt(turns: seq<WatchTurn>, k: nat, timeout: int, poll: int, end: WatchEnd)
    requires k <= |turns|
  {
    if k == |turns| then end == NotObserved
    else if turns[k].cancelled then end == Interrupted
    else
      match turns[k].answer
      case Found(entry) => end == Next(entry)
      case Fails => end == Raised
      case NoEntry => true
      case RunsOut => poll * (RunOut(turns, k) + 1) >= timeout ==> end == TimedOut
  }

  /** After a slice that did not use up the timeout, one slice less is left of a timeout that is as much shorter. */
  lemma OneSliceLess(n: nat, timeout: int, poll: int)
    requires poll > 0 && poll * (n + 1) < timeout
    ensures NextSlice(timeout, poll) == poll && timeout - poll > 0
    ensures poll * n < timeout - poll
    ensures poll * (n + 1) >= timeout - poll <==> poll * (n + 2) >= timeout
  {
    assert poll * (n + 1) == poll * n + poll;
    assert poll * n >= 0;
    assert poll * (n + 2) == poll * (n + 1) + poll;
  }

  lemma {:induction false} WatchTurnEnds(turns: seq<WatchTurn>, k: nat, timeout: int, poll: int)
    requires poll > 0 && WatchComes(turns, k, timeout, poll)
    ensures WatchEndsAt(turns, k, timeout, poll, Watch(turns, timeout, poll).end)
    decreases k
  {
    if k == 0 {
    } else {
      var rest := turns[1..];
      assert forall j :: 0 <= j < |rest| ==> rest[j] == turns[j + 1];
      if turns[0].answer.NoEntry? {
        WatchTurnEnds(rest, k - 1, timeout, poll);
      } else {
        OneSliceLess(RunOut(rest, k - 1), timeout, poll);
        WatchTurnEnds(rest, k - 1, timeout - poll, poll);
      }
    }
  }

  /** The wait from turn i on. */
  lemma WatchStep(turns: seq<WatchTurn>, i: nat, remaining: int, poll: int)
    requires poll > 0 && i < |turns|
    ensures var t := turns[i]; var slice := NextSlice(remaining, poll);
            Watch(turns[i..], remaining, poll) ==
            if t.cancelled then Watched(Interrupted, [], 0)
            else if t.answer.Found? then Watched(Next(t.answer.entry), [slice], t.elapsed)
            else if t.answer.Fails? then Watched(Raised, [slice], t.elapsed)
            else if t.answer.NoEntry? then Longer(slice, t.elapsed, Watch(turns[i + 1..], remaining, poll))
            else if remaining - slice <= 0 then Watched(TimedOut, [slice], slice)
            else Longer(slice, slice, Watch(turns[i + 1..], remaining - slice, poll))
  {
    assert turns[i..][0] == turns[i] && turns[i..][1..] == turns[i + 1..];
  }

  lemma NothingWatched(turns: seq<WatchTurn>, remaining: int, poll: int)
    requires poll > 0
    ensures Watch(turns[|turns|..], remaining, poll) == Watched(NotObserved, [], 0)
  {
  }

  lemma LongerContinues(whole: Watched, asked: seq<int>, passed: int, slice: int, time: int, rest: Watched)
    requires Continues(whole, asked, passed, Longer(slice, time, rest))
    ensures Continues(whole, asked + [slice], passed + time, rest)
  {
    assert asked + ([slice] + rest.asked) == asked + [slice] + rest.asked;
  }

  class KVWatcher {
    //! the entries received and those that kvEntry_Destroy() was called for
    ghost var received: seq<Entry>
    ghost var destroyed: seq<Entry>
    //! the clock
    ghost var clock: int

    constructor ()
      ensures received == destroyed == [] && clock == 0
    {
      received, destroyed, clock := [], [], 0;
    }

    /** The loop. */
    method Wait(timeout: int, poll: int, cancelledFirst: bool, turns: seq<WatchTurn>)
      returns (end: WatchEnd, asked: seq<int>)
      requires poll > 0
      modifies this
      ensures Watched(end, asked, clock - old(clock)) ==
              if cancelledFirst then Watched(Interrupted, [], 0) else Watch(turns, timeout, poll)
      ensures received == old(received) + (if end.Next? then [end.entry] else [])
      ensures destroyed == old(destroyed) + (if end.Next? then [end.entry] else [])
    {
      hide Watch, NextSlice, Longer;
      asked := [];
      if cancelledFirst {
        return Interrupted, [];
      }
      var remaining := timeout;
      var i := 0;
      assert turns[0..] == turns;
      while i < |turns|
        invariant 0 <= i <= |turns|
        invariant Continues(Watch(turns, timeout, poll), asked, clock - old(clock), Watch(turns[i..], remaining, poll))
        invariant received == old(received) && destroyed == old(destroyed)
      {
        WatchStep(turns, i, remaining, poll);
        if turns[i].cancelled {
          assert asked + [] == asked;
          return Interrupted, asked;
        }
        var slice := NextSlice(remaining, poll);
        ghost var before, passed := asked, clock - old(clock);
        asked := asked + [slice];
        clock := clock + if turns[i].answer.RunsOut? then slice else turns[i].elapsed;
        match turns[i].answer {
          case Found(entry) =>
            received := received + [entry];
            destroyed := destroyed + [entry];
            return Next(entry), asked;
          case RunsOut =>
            remaining := remaining - slice;
            if remaining <= 0 {
              return TimedOut, asked;
            }
            LongerContinues(Watch(turns, timeout, poll), before, passed, slice, slice,
                            Watch(turns[i + 1..], remaining, poll));
          case Fails =>
            return Raised, asked;
          case NoEntry =>
            LongerContinues(Watch(turns, timeout, poll), before, passed, slice, turns[i].elapsed,
                            Watch(turns[i + 1..], remaining, poll));
        }
        i := i + 1;
      }
      NothingWatched(turns, remaining, poll);
      assert asked + [] == asked;
      end := NotObserved;
    }

    /** The next entry; an entry is destroyed as soon as it is converted. */
    method GetNext(timeout: int, poll: int, cancelledFirst: bool, turns: seq<WatchTurn>)
      returns (end: WatchEnd, asked: seq<int>)
      requires poll > 0
      modifies this
      ensures Watched(end, asked, clock - old(clock)) ==
              if cancelledFirst then Watched(Interrupted, [], 0) else Watch(turns, timeout, poll)
      ensures received == old(received) + (if end.Next? then [end.entry] else [])
      ensures destroyed == old(destroyed) + (if end.Next? then [end.entry] else [])
      ensures cancelledFirst ==> end == Interrupted
      ensures !cancelledFirst ==>
                forall k: nat :: WatchComes(turns, k, timeout, poll) ==> WatchEndsAt(turns, k, timeout, poll, end)
    {
      hide Watch, WatchEndsAt;
      end, asked := Wait(timeout, poll, cancelledFirst, turns);
      if !cancelledFirst {
        forall k: nat | WatchComes(turns, k, timeout, poll) ensures WatchEndsAt(turns, k, timeout, poll, end) {
          WatchTurnEnds(turns, k, timeout, poll);
        }
      }
    }
  }

  /** No slice is longer than the poll interval, and none is empty. */
  lemma {:induction false} SlicesBounded(turns: seq<WatchTurn>, timeout: int, poll: int)
    requires poll > 0 && timeout > 0
    ensures forall x :: x in Watch(turns, timeout, poll).asked ==> 0 < x <= poll
    decreases |turns|
  {
    if turns == [] || turns[0].cancelled {
    } else {
      var slice := NextSlice(timeout, poll);
      if turns[0].answer.NoEntry? {
        SlicesBounded(turns[1..], timeout, poll);
      } else if turns[0].answer.RunsOut? && timeout - slice > 0 {
        SlicesBounded(turns[1..], timeout - slice, poll);
      }
    }
  }

  /** The number of answers without an entry among the first n turns. */
  function Empty(turns: seq<WatchTurn>, n: nat): nat
    requires n <= |turns|
  {
    if n == 0 then 0
    else (if turns[0].answer.NoEntry? then 1 else 0) + Empty(turns[1..], n - 1)
  }

  /** The wait ends: it takes at most one turn for each slice of the timeout and for each answer without an entry. */
  lemma {:induction false} WatchEnds(turns: seq<WatchTurn>, timeout: int, poll: int)
    requires poll > 0
    ensures var w := Watch(turns, timeout, poll);
            |w.asked| <= |turns| && |w.asked| <= |Slices(timeout, poll)| + Empty(turns, |w.asked|) &&
            (w.end == NotObserved ==>
               |w.asked| == |turns| && |turns| < |Slices(timeout, poll)| + Empty(turns, |turns|))
    decreases |turns|
  {
    if turns == [] || turns[0].cancelled {
    } else {
      var slice := NextSlice(timeout, poll);
      FirstSlice(timeout, poll);
      if turns[0].answer.NoEntry? {
        WatchEnds(turns[1..], timeout, poll);
      } else if turns[0].answer.RunsOut? && timeout - slice > 0 {
        WatchEnds(turns[1..], timeout - slice, poll);
      }
    }
  }

  /** The time that the answers without an entry among the first n turns took. */
  function Wasted(turns: seq<WatchTurn>, n: nat): int
    requires n <= |turns|
  {
    if n == 0 then 0
    else (if turns[0].answer.NoEntry? then turns[0].elapsed else 0) + Wasted(turns[1..], n - 1)
  }

  /** The clock does not run backwards. */
  predicate ClockRuns(turns: seq<WatchTurn>) {
    forall i :: 0 <= i < |turns| ==> turns[i].elapsed >= 0
  }

  /** A wait that runs out took its timeout and, in addition, the time of every answer without an entry. */
  lemma {:induction false} TimeoutAndMore(turns: seq<WatchTurn>, timeout: int, poll: int)
    requires poll > 0 && Watch(turns, timeout, poll).end == TimedOut
    ensures var w := Watch(turns, timeout, poll);
            |w.asked| <= |turns| && w.passed == timeout + Wasted(turns, |w.asked|)
    decreases |turns|
  {
    var slice := NextSlice(timeout, poll);
    if turns[0].answer.NoEntry? {
      TimeoutAndMore(turns[1..], timeout, poll);
    } else if timeout - slice > 0 {
      TimeoutAndMore(turns[1..], timeout - slice, poll);
    } else {
      assert Wasted(turns[1..], 0) == 0;
    }
  }

  lemma {:induction false} NothingWasted(turns: seq<WatchTurn>, n: nat)
    requires n <= |turns| && ClockRuns(turns)
    ensures Wasted(turns, n) >= 0
    ensures Wasted(turns, n) == 0 <==> forall i :: 0 <= i < n && turns[i].answer.NoEntry? ==> turns[i].elapsed == 0
    decreases n
  {
    if n == 0 {
    } else {
      assert forall i :: 0 <= i < |turns[1..]| ==> turns[1..][i] == turns[i + 1];
      NothingWasted(turns[1..], n - 1);
      if forall i :: 0 <= i < n - 1 && turns[1..][i].answer.NoEntry? ==> turns[1..][i].elapsed == 0 {
        forall i | 1 <= i < n && turns[i].answer.NoEntry? ensures turns[i].elapsed == 0 {
          assert turns[1..][i - 1] == turns[i];
        }
      }
    }
  }

  /** A wait that runs out took exactly its timeout if and only if every answer without an entry came at once. */
  lemma TimeoutIsExact(turns: seq<WatchTurn>, timeout: int, poll: int)
    requires poll > 0 && ClockRuns(turns) && Watch(turns, timeout, poll).end == TimedOut
    ensures var w := Watch(turns, timeout, poll);
            |w.asked| <= |turns| && w.passed >= timeout &&
            (w.passed == timeout <==>
               forall i :: 0 <= i < |w.asked| && turns[i].answer.NoEntry? ==> turns[i].elapsed == 0)
  {
    TimeoutAndMore(turns, timeout, poll);
    NothingWasted(turns, |Watch(turns, timeout, poll).asked|);
  }

  /** A wait of 100 ms that takes 150: the first answer comes after 50 ms, without an entry. */
  lemma TimeoutExceeded()
    ensures var turns := [WatchTurn(false, NoEntry, 50), WatchTurn(false, RunsOut, 0)];
            Watch(turns, 100, 100) == Watched(TimedOut, [100, 100], 150)
  {
    var turns := [WatchTurn(false, NoEntry, 50), WatchTurn(false, RunsOut, 0)];
    assert turns[1..] == [WatchTurn(false, RunsOut, 0)];
    assert Watch(turns[1..], 100, 100) == Watched(TimedOut, [100], 100);
    assert [100] + [100] == [100, 100];
  }
}
