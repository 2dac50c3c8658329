/** Waits of the Qore thread in the C client, cut into slices so that a cancellation is noticed between them. */
module SlicedWait {
  import opened Wrappers

  /** The length of the next slice. */
  function NextSlice(remaining: int, poll: int): int {
    if remaining > poll then poll else remaining
  }

  /** The slices of a wait, if every one of them runs out. */
  function Slices(timeout: int, poll: int): (s: seq<int>)
    requires poll > 0
    ensures s != []
    decreases if timeout > 0 then timeout else 0
  {
    var slice := NextSlice(timeout, poll);
    if timeout - slice <= 0 then [slice] else [slice] + Slices(timeout - slice, poll)
  }

  function Sum(s: seq<int>): int {
    if s == [] then 0 else s[0] + Sum(s[1..])
  }

  /** The slices add up to the timeout, none is longer than the poll interval, and there are no more of them than
      needed: the timeout over the interval, rounded up, but at least one. */
  lemma {:induction false} SlicesMeaning(timeout: int, poll: int)
    requires poll > 0
    ensures Sum(Slices(timeout, poll)) == timeout
    ensures forall s :: s in Slices(timeout, poll) ==> s <= poll && (timeout > 0 ==> s > 0)
    ensures timeout > 0 ==> poll * (|Slices(timeout, poll)| - 1) < timeout <= poll * |Slices(timeout, poll)|
    ensures timeout <= 0 ==> Slices(timeout, poll) == [timeout]
    decreases if timeout > 0 then timeout else 0
  {
    var slice := NextSlice(timeout, poll);
    if timeout - slice > 0 {
      var rest := Slices(timeout - slice, poll);
      SlicesMeaning(timeout - slice, poll);
      assert ([slice] + rest)[1..] == rest;
      assert poll * |rest| == poll * (|rest| - 1) + poll;
      assert poll * (|rest| + 1) == poll * |rest| + poll;
    } else {
      assert [slice][1..] == [];
    }
  }

  /** The answer of the C client to one slice; an answer may carry a value. */
  datatype Answer<+A> = Answered(value: A) | RanOut

  /** One turn of a wait loop: the cancellation check, and the answer if the thread was not cancelled. */
  datatype Turn<+A> = Turn(cancelled: bool, answer: Answer<A>)

  /** A wait that was not observed to its end is still going on after the last turn. */
  datatype End<+A> = Cancelled | Ended(value: A) | OutOfTime | Unobserved

  predicate Idle<A>(t: Turn<A>) {
    !t.cancelled && t.answer.RanOut?
  }

  /** The number of turns before the first cancellation or answer. */
  function IdleTurns<A>(turns: seq<Turn<A>>): (n: nat)
    ensures n <= |turns|
    ensures forall i :: 0 <= i < n ==> Idle(turns[i])
    ensures n < |turns| ==> !Idle(turns[n])
  {
    if turns == [] || !Idle(turns[0]) then 0
    else
      assert forall i :: 1 <= i < |turns| ==> turns[i] == turns[1..][i - 1];
      1 + IdleTurns(turns[1..])
  }

  lemma IdleTurnsAre<A>(turns: seq<Turn<A>>, n: nat)
    requires n <= |turns| && forall i :: 0 <= i < n ==> Idle(turns[i])
    requires n < |turns| ==> !Idle(turns[n])
    ensures IdleTurns(turns) == n
  {
  }

  /** How a wait ends: with the first answer or cancellation, unless as many slices as there are run out before it. */
  function OneWait<A>(turns: seq<Turn<A>>, slices: Option<nat>): End<A> {
    var n := IdleTurns(turns);
    if slices.Some? && n >= slices.value then OutOfTime
    else if n == |turns| then Unobserved
    else if turns[n].cancelled then Cancelled
    else Ended(turns[n].answer.value)
  }

  /** The slices that are asked for: one in each turn that is not cancelled, up to the end of the wait. */
  function Asked<A>(turns: seq<Turn<A>>): nat {
    var n := IdleTurns(turns);
    if n < |turns| && !turns[n].cancelled then n + 1 else n
  }

  lemma FirstSlice(remaining: int, poll: int)
    requires poll > 0
    ensures var slice := NextSlice(remaining, poll);
            Slices(remaining, poll)[0] == slice &&
            Slices(remaining, poll)[1..] == if remaining - slice <= 0 then [] else Slices(remaining - slice, poll)
  {
  }

  /** What is asked for next, where the slices asked for and those of the remaining time are all of them. */
  lemma NextPart(asked: seq<int>, remaining: int, timeout: int, poll: int)
    requires poll > 0 && asked + Slices(remaining, poll) == Slices(timeout, poll)
    ensures |asked| < |Slices(timeout, poll)| && asked <= Slices(timeout, poll)
    ensures var slice := NextSlice(remaining, poll);
            asked + [slice] <= Slices(timeout, poll) &&
            if remaining - slice <= 0 then asked + [slice] == Slices(timeout, poll)
            else asked + [slice] + Slices(remaining - slice, poll) == Slices(timeout, poll)
  {
    hide Slices;
    FirstSlice(remaining, poll);
    assert Slices(remaining, poll) == [Slices(remaining, poll)[0]] + Slices(remaining, poll)[1..];
  }

  lemma EnoughIdle<A>(turns: seq<Turn<A>>, n: nat)
    requires n <= |turns| && forall i :: 0 <= i < n ==> Idle(turns[i])
    ensures IdleTurns(turns) >= n
  {
  }

  /** The slices that were asked for are the first n of the wait, or all of them if there are fewer. */
  predicate AskedFor(asked: seq<int>, timeout: int, infinite: bool, poll: int, n: nat)
    requires poll > 0
  {
    if infinite then |asked| == n && forall s :: s in asked ==> s == poll
    else asked <= Slices(timeout, poll) && |asked| == if n < |Slices(timeout, poll)| then n else |Slices(timeout, poll)|
  }

  // By the turns, one after the other

  /** Turn k of the loop comes: in the turns before it the thread was not cancelled, no answer came, and their slices did
      not use up the timeout. */
  predicate Comes<A>(turns: seq<Turn<A>>, k: nat, timeout: int, infinite: bool, poll: int) {
    k <= |turns| && (forall j :: 0 <= j < k ==> !turns[j].cancelled && turns[j].answer.RanOut?) &&
    (infinite || k == 0 || poll * k < timeout)
  }

  /** What the turn does to the wait: a cancelled one ends it before its slice is asked for, an answer ends it with its
      value, and a slice that runs out ends it if no time is left. */
  predicate EndsAt<A(==)>(turns: seq<Turn<A>>, k: nat, timeout: int, infinite: bool, poll: int, end: End<A>, asked: nat)
    requires k <= |turns|
  {
    if k == |turns| then end == Unobserved && asked == k
    else if turns[k].cancelled then end == Cancelled && asked == k
    else
      match turns[k].answer
      case Answered(v) => end == Ended(v) && asked == k + 1
      case RanOut => !infinite && poll * (k + 1) >= timeout ==> end == OutOfTime && asked == k + 1
  }

  lemma Scaled(poll: int, a: nat, b: nat)
    requires poll > 0 && a <= b
    ensures poll * a <= poll * b
  {
    assert poll * b == poll * a + poll * (b - a);
  }

  lemma SlicesLeft(timeout: int, poll: int, k: nat)
    requires poll > 0
    ensures k < |Slices(timeout, poll)| <==> k == 0 || poll * k < timeout
  {
    hide Slices;
    var n := |Slices(timeout, poll)|;
    SlicesMeaning(timeout, poll);
    if timeout > 0 {
      if k < n {
        Scaled(poll, k, n - 1);
      } else {
        Scaled(poll, n, k);
      }
    } else {
      Scaled(poll, 0, k);
    }
  }

  lemma TurnEnds<A>(turns: seq<Turn<A>>, k: nat, timeout: int, infinite: bool, poll: int)
    requires poll > 0 && Comes(turns, k, timeout, infinite, poll)
    ensures var end := OneWait(turns, if infinite then None else Some(|Slices(timeout, poll)|)); var n := Asked(turns);
            EndsAt(turns, k, timeout, infinite, poll, end,
                   if !infinite && n >= |Slices(timeout, poll)| then |Slices(timeout, poll)| else n)
  {
    hide IdleTurns, Slices;
    SlicesLeft(timeout, poll, k);
    if k < |turns| && Idle(turns[k]) {
      SlicesLeft(timeout, poll, k + 1);
      EnoughIdle(turns, k + 1);
    } else {
      IdleTurnsAre(turns, k);
    }
  }

  /** The loop of the four calls that wait for an answer.  No time limit stands for an infinite wait. */
  method TakeSlices<A>(timeout: int, infinite: bool, poll: int, cancelledFirst: bool, turns: seq<Turn<A>>)
    returns (end: End<A>, asked: seq<int>)
    requires poll > 0
    ensures end == if cancelledFirst then Cancelled
                   else OneWait(turns, if infinite then None else Some(|Slices(timeout, poll)|))
    ensures AskedFor(asked, timeout, infinite, poll, if cancelledFirst then 0 else Asked(turns))
  {
    hide Slices, IdleTurns;
    asked := [];
    if cancelledFirst {
      return Cancelled, [];
    }
    var remaining := timeout;
    var i := 0;
    assert [] + Slices(timeout, poll) == Slices(timeout, poll);
    while i < |turns|
      invariant 0 <= i <= |turns| && |asked| == i
      invariant forall j :: 0 <= j < i ==> Idle(turns[j])
      invariant !infinite ==> asked + Slices(remaining, poll) == Slices(timeout, poll)
      invariant infinite ==> forall s :: s in asked ==> s == poll
    {
      if !infinite {
        NextPart(asked, remaining, timeout, poll);
      }
      if turns[i].cancelled {
        IdleTurnsAre(turns, i);
        return Cancelled, asked;
      }
      var slice := if infinite then poll else NextSlice(remaining, poll);
      asked := asked + [slice];
      if turns[i].answer.Answered? {
        IdleTurnsAre(turns, i);
        return Ended(turns[i].answer.value), asked;
      }
      if !infinite {
        remaining := remaining - slice;
        if remaining <= 0 {
          EnoughIdle(turns, i + 1);
          return OutOfTime, asked;
        }
      }
      i := i + 1;
    }
    IdleTurnsAre(turns, |turns|);
    if !infinite {
      NextPart(asked, remaining, timeout, poll);
    }
    end := Unobserved;
  }

  /** The same, turn by turn. */
  method WaitInSlices<A(==)>(timeout: int, infinite: bool, poll: int, cancelledFirst: bool, turns: seq<Turn<A>>)
    returns (end: End<A>, asked: seq<int>)
    requires poll > 0
    ensures end == if cancelledFirst then Cancelled
                   else OneWait(turns, if infinite then None else Some(|Slices(timeout, poll)|))
    ensures AskedFor(asked, timeout, infinite, poll, if cancelledFirst then 0 else Asked(turns))
    ensures cancelledFirst ==> end == Cancelled && asked == []
    ensures !cancelledFirst ==>
              forall k: nat :: Comes(turns, k, timeout, infinite, poll) ==>
                                 EndsAt(turns, k, timeout, infinite, poll, end, |asked|)
  {
    hide Slices, OneWait, Asked, EndsAt;
    end, asked := TakeSlices(timeout, infinite, poll, cancelledFirst, turns);
    if !cancelledFirst {
      forall k: nat | Comes(turns, k, timeout, infinite, poll)
        ensures EndsAt(turns, k, timeout, infinite, poll, end, |asked|)
      {
        TurnEnds(turns, k, timeout, infinite, poll);
      }
    }
  }

  // ---------- A wait in slices is one wait ----------

  /** The turns of a wait for an answer that comes at some time: a slice that ends before it runs out. */
  function TurnsUntil<A>(slices: seq<int>, start: int, arrival: int, value: A): (turns: seq<Turn<A>>)
    ensures |turns| == |slices|
  {
    if slices == [] then []
    else [Turn(false, if arrival < start + slices[0] then Answered(value) else RanOut)]
         + TurnsUntil(slices[1..], start + slices[0], arrival, value)
  }

  lemma {:induction false} LaterSlices(slices: seq<int>)
    requires forall i :: 0 <= i < |slices| ==> slices[i] > 0
    ensures Sum(slices) >= 0
  {
    if slices == [] {
    } else {
      LaterSlices(slices[1..]);
    }
  }

  lemma {:induction false} ArrivalTurn<A>(slices: seq<int>, start: int, arrival: int, value: A)
    requires slices != [] && forall i :: 1 <= i < |slices| ==> slices[i] > 0
    ensures var turns := TurnsUntil(slices, start, arrival, value); var n := IdleTurns(turns);
            if arrival < start + Sum(slices) then n < |slices| && turns[n] == Turn(false, Answered(value))
            else n == |slices|
    decreases |slices|
  {
    var turns := TurnsUntil(slices, start, arrival, value);
    var rest := TurnsUntil(slices[1..], start + slices[0], arrival, value);
    assert turns[1..] == rest;
    if |slices| == 1 {
      assert slices[1..] == [] && rest == [] && Sum(slices) == slices[0] + Sum([]);
      IdleTurnsAre(turns, if arrival < start + slices[0] then 0 else 1);
    } else {
      ArrivalTurn(slices[1..], start + slices[0], arrival, value);
      LaterSlices(slices[1..]);
    }
  }

  /** An answer that comes at some time is returned if and only if that is before the end of the timeout, as by a single
      wait for the whole of it, whatever the length of the slices. */
  lemma ArrivalDecides<A>(timeout: int, poll: int, arrival: int, value: A)
    requires poll > 0
    ensures var slices := Slices(timeout, poll);
            OneWait(TurnsUntil(slices, 0, arrival, value), Some(|slices|)) ==
            if arrival < timeout then Ended(value) else OutOfTime
  {
    hide Slices, TurnsUntil;
    var slices := Slices(timeout, poll);
    SlicesMeaning(timeout, poll);
    if timeout > 0 {
      assert forall i :: 1 <= i < |slices| ==> slices[i] in slices;
    }
    ArrivalTurn(slices, 0, arrival, value);
  }
}
