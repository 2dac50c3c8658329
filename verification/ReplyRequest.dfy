/** One request as its thread executes it, while the other threads do what they like.

    Wherever the request does not hold the mutex, any steps of the other requests, of the C client, of the clock and of
    the connection's destructor may come, on the same structure.  The code is shown to be a run of the protocol that
    contains all of them, so what holds in every interleaving holds for it.
*/
module ReplyRequest {
  import opened Wrappers
  import opened Interleaving
  import opened Tokens
  import opened ReplyClock
  import opened ReplyReferences
  import opened ReplySlots
  import opened ReplyProtocol

  datatype WaitEnd = Got(msg: Message) | Expired | Cancelled | StillWaiting

  /** What the threads see: the time, the number of messages received, and what the others still do at the points
      where the request does not hold the mutex. */
  datatype Where = Where(now: int, next: nat, gaps: seq<seq<Step>>)

  /** The steps of the request so far and the gaps between them, the protocol state that they lead to, and the state
      that the steps of the others alone lead to. */
  datatype Trace = Trace(own: seq<Step>, gone: seq<seq<Step>>, t: State, alone: State)

  predicate Own(step: Step, n: nat) {
    match step
    case CreateSlot(k) => k == n
    case FailToPublish(k) => k == n
    case StartWaiting(k, _) => k == n
    case Check(k) => k == n
    case Interrupt(k) => k == n
    case Consume(k) => k == n
    case Return(k) => k == n
    case _ => false
  }

  function AllOthers(gaps: seq<seq<Step>>): seq<Step> {
    if gaps == [] then [] else gaps[0] + AllOthers(gaps[1..])
  }

  /** No step of a request itself. */
  predicate Foreign(steps: seq<Step>, n: nat) {
    forall i :: 0 <= i < |steps| ==> !Own(steps[i], n)
  }

  // ---------- The steps of a request do not concern the others ----------

  ghost predicate SameSlots(e: Slots, t: Slots, token: string) {
    forall u :: u != token ==> (u in e.replies <==> u in t.replies) && Content(e, u) == Content(t, u)
  }

  /** Two states that differ only in the phase and the slot of a request, and in what was destroyed. */
  ghost predicate Same(e: State, t: State, n: nat) {
    e.prefix == t.prefix && e.counter == t.counter && e.history == t.history && e.now == t.now &&
    e.alive == t.alive && e.completed == t.completed && e.refs == t.refs &&
    n in e.requests && n in t.requests && n <= t.counter && t.requests == e.requests[n := t.requests[n]] &&
    SameSlots(e.slots, t.slots, Decimal(n))
  }

  lemma SlotSteps(e: Slots, t: Slots, token: string, u: string)
    requires SameSlots(e, t, token)
    ensures SameSlots(Put(e, u, None), Put(t, u, None), token)
    ensures SameSlots(Take(e, u), Take(t, u), token)
    ensures SameSlots(Erase(e, u), Erase(t, u), token)
  {
  }

  lemma SlotDelivery(e: Slots, t: Slots, token: string, prefix: string, subject: Option<string>, m: Message)
    requires SameSlots(e, t, token)
    ensures SameSlots(Deliver(e, prefix, subject, m), Deliver(t, prefix, subject, m), token)
  {
    hide StripPrefix;
    var u := Addressed(prefix, subject);
    if u.Some? {
      assert u.value != token ==> Content(e, u.value) == Content(t, u.value);
    }
  }

  lemma OwnSlotSteps(e: Slots, t: Slots, token: string)
    requires SameSlots(e, t, token)
    ensures SameSlots(e, Put(t, token, None), token) && SameSlots(e, Take(t, token), token)
  {
  }

  lemma SamePhase(e: State, t: State, p: Phase, reply: Option<Message>)
    requires e.history == t.history && e.now == t.now && p.Waiting?
    ensures CheckPhase(e, p, reply) == CheckPhase(t, p, reply)
  {
  }

  lemma SameRelease(e: State, t: State, n: nat, refs: References)
    requires Same(e, t, n)
    ensures Same(Release(e, refs), Release(t, refs), n) && Release(t, refs).requests == t.requests
  {
    hide Decimal;
  }

  lemma SameContents(e: Slots, t: Slots, token: string, u: string)
    requires SameSlots(e, t, token) && u != token
    ensures Content(e, u) == Content(t, u)
  {
  }

  lemma SlotsDestroyed(e: Slots, t: Slots, token: string, m: Message)
    requires SameSlots(e, t, token)
    ensures SameSlots(Destroy(e, Some(m)), Destroy(t, Some(m)), token)
  {
  }

  lemma OtherCheck(e: State, t: State, n: nat, k: nat)
    requires Same(e, t, n) && Enabled(e, Check(k)) && k != n
    ensures Enabled(t, Check(k)) && Same(Next(e, Check(k)), Next(t, Check(k)), n)
    ensures Next(t, Check(k)).requests[n] == t.requests[n]
  {
    hide Decimal, SameSlots, Content, Take, CheckPhase;
    SlotSteps(e.slots, t.slots, Decimal(n), Decimal(k));
    OtherToken(n, k);
    SameContents(e.slots, t.slots, Decimal(n), Decimal(k));
    SamePhase(e, t, e.requests[k], Content(e.slots, Decimal(k)));
  }

  lemma OtherReturn(e: State, t: State, n: nat, k: nat)
    requires Same(e, t, n) && Enabled(e, Return(k)) && k != n
    ensures Enabled(t, Return(k)) && Same(Next(e, Return(k)), Next(t, Return(k)), n)
    ensures Next(t, Return(k)).requests[n] == t.requests[n]
  {
    hide Decimal, SameSlots, Erase, Drop, Release;
    SlotSteps(e.slots, t.slots, Decimal(n), Decimal(k));
    SameRelease(Ended(e, k), Ended(t, k), n, Drop(t.refs));
  }

  lemma OtherPhase(e: State, t: State, n: nat, step: Step, k: nat)
    requires Same(e, t, n) && Enabled(e, step) && Own(step, k) && k != n && !step.Check? && !step.Return?
    ensures Enabled(t, step) && Same(Next(e, step), Next(t, step), n)
    ensures Next(t, step).requests[n] == t.requests[n]
  {
    hide Decimal, SameSlots, Put, Deadline, Content, Destroy;
    match step {
      case CreateSlot(_) => SlotSteps(e.slots, t.slots, Decimal(n), Decimal(k));
      case Consume(_) => SlotsDestroyed(e.slots, t.slots, Decimal(n), t.requests[k].msg);
      case _ =>
    }
  }

  /** A step of another request. */
  lemma OtherRequestStep(e: State, t: State, n: nat, step: Step, k: nat)
    requires Same(e, t, n) && Enabled(e, step) && Own(step, k) && k != n
    ensures Enabled(t, step) && Same(Next(e, step), Next(t, step), n)
    ensures Next(t, step).requests[n] == t.requests[n]
  {
    hide Same, Next, Enabled;
    match step {
      case Check(_) => OtherCheck(e, t, n, k);
      case Return(_) => OtherReturn(e, t, n, k);
      case _ => OtherPhase(e, t, n, step, k);
    }
  }

  /** A step of another thread is possible with or without the steps of the request, and leaves it alone. */
  lemma ForeignStep(e: State, t: State, n: nat, step: Step)
    requires Same(e, t, n) && Enabled(e, step) && !Own(step, n)
    ensures Enabled(t, step) && Same(Next(e, step), Next(t, step), n)
    ensures Next(t, step).requests[n] == t.requests[n]
  {
    hide SameSlots, Deliver, Drop, Release;
    match step {
      case Begin =>
      case Receive(d) => SlotDelivery(e.slots, t.slots, Decimal(n), t.prefix, d.subject, |t.history|);
      case Tick(_) =>
      case DropConnection => SameRelease(Gone(e, step), Gone(t, step), n, Dropped(t, step));
      case CompleteSubscription => SameRelease(Gone(e, step), Gone(t, step), n, Dropped(t, step));
      case _ =>
        hide Next, Enabled, Same;
        OtherRequestStep(e, t, n, step, step.n);
    }
  }

  lemma OwnDestroyed(e: Slots, t: Slots, token: string, m: Message)
    requires SameSlots(e, t, token)
    ensures SameSlots(e, Destroy(t, Some(m)), token)
  {
  }

  /** A step of the request, other than its last, is none of the others' business. */
  lemma OwnStep(e: State, t: State, n: nat, step: Step)
    requires Same(e, t, n) && Enabled(t, step) && Own(step, n) && !step.Return?
    ensures Same(e, Next(t, step), n)
  {
    hide Decimal, SameSlots, Content, Take, Put, Remaining, WaitMs, Deadline;
    OwnSlotSteps(e.slots, t.slots, Decimal(n));
    if step.Consume? {
      OwnDestroyed(e.slots, t.slots, Decimal(n), t.requests[n].msg);
    }
  }

  // ---------- The clock ----------

  /** The time after some steps. */
  function TimeAfter(start: int, steps: seq<Step>): int {
    if steps == [] then start
    else
      var step := steps[|steps| - 1];
      if step.Tick? then step.time else TimeAfter(start, steps[..|steps| - 1])
  }

  /** The time after the first k gaps, or after all of them. */
  function ClockAfter(start: int, gaps: seq<seq<Step>>, k: nat): int
    decreases k
  {
    if k == 0 || gaps == [] then start else ClockAfter(TimeAfter(start, gaps[0]), gaps[1..], k - 1)
  }

  lemma {:induction false} ClockStep(start: int, gaps: seq<seq<Step>>, k: nat)
    requires k <= |gaps|
    ensures ClockAfter(start, gaps, k + 1) == ClockAfter(ClockAfter(start, gaps, k), gaps[k..], 1)
    decreases k
  {
    if k == 0 {
      assert gaps[0..] == gaps;
    } else {
      ClockStep(TimeAfter(start, gaps[0]), gaps[1..], k - 1);
      assert gaps[1..][k - 1..] == gaps[k..];
    }
  }

  // ---------- Runs with the others ----------

  predicate OwnSteps(steps: seq<Step>, n: nat) {
    forall i :: 0 <= i < |steps| ==> Own(steps[i], n)
  }

  /** A run from s in which the request has taken its own steps so far, and the others can go on with the rest of the
      gaps.  The next gap is due exactly after a step of the request. */
  ghost predicate Going(s: State, n: nat, gaps: seq<seq<Step>>, at: Where, tr: Trace, due: bool) {
    Leads(s, Woven(tr.own, tr.gone), tr.t) && Invariant(tr.t) && Same(tr.alone, tr.t, n) && tr.t.now == at.now &&
    CanRun(tr.alone, AllOthers(at.gaps)) && Foreign(AllOthers(at.gaps), n) && OwnSteps(tr.own, n) &&
    Cut(gaps, tr.gone, at.gaps, |tr.own|, due)
  }

  ghost function On(tr: Trace, step: Step): Trace
    requires Enabled(tr.t, step)
  {
    tr.(own := tr.own + [step], t := Next(tr.t, step))
  }

  lemma SameTime(t: State, step: Step, n: nat)
    requires Enabled(t, step) && Own(step, n)
    ensures Next(t, step).now == t.now
  {
  }

  lemma GoesOn(s: State, n: nat, gaps: seq<seq<Step>>, at: Where, tr: Trace, step: Step)
    requires Going(s, n, gaps, at, tr, false) && Enabled(tr.t, step) && Own(step, n) && !step.Return?
    ensures Going(s, n, gaps, at, On(tr, step), true)
  {
    hide Leads, CanRun, Run, Enabled, Same, AllOthers, Foreign, Invariant, Woven;
    LeadsOn(s, Woven(tr.own, tr.gone), tr.t, step);
    WovenStep(tr.own, tr.gone, step);
    InvariantKept(tr.t, step);
    OwnStep(tr.alone, tr.t, n, step);
    SameTime(tr.t, step, n);
  }

  /** The structure of the code is the one of the protocol. */
  ghost predicate Tracks(mux: ReplyMux, s: State, next: nat)
    reads mux
  {
    mux.prefix == s.prefix && mux.State() == s.slots && next == |s.history|
  }

  /** The last reference finds no slot, so giving it back leaves the structure as it is. */
  lemma ReleaseChangesNothing(t: State, step: Step)
    requires Invariant(t) && Enabled(t, step)
    ensures step.Return? ==> Next(t, step).slots == Erase(t.slots, Decimal(step.n))
    ensures step.DropConnection? || step.CompleteSubscription? ==> Next(t, step).slots == t.slots
    ensures step.Return? || step.DropConnection? || step.CompleteSubscription? ==>
              Next(t, step).history == t.history && Next(t, step).prefix == t.prefix
  {
    hide Consistent, CountRight, Decimal, Erase, Drop, DropByCallback, DropByConnection, Release;
    match step {
      case Return(n) =>
        Ending(t, n);
        OneLessActive(t, n);
        Releasing(Ended(t, n), Drop(t.refs));
      case DropConnection =>
        HolderGone(t, step);
        Releasing(Gone(t, step), Dropped(t, step));
      case CompleteSubscription =>
        HolderGone(t, step);
        Releasing(Gone(t, step), Dropped(t, step));
      case _ =>
    }
  }

  /** One step of another thread, on the structure that it shares with the request. */
  method OtherStep(mux: ReplyMux, step: Step, first: nat, ghost t: State) returns (next: nat)
    requires Tracks(mux, t, first) && Invariant(t) && Enabled(t, step)
    modifies mux
    ensures Tracks(mux, Next(t, step), next)
  {
    hide Invariant, Decimal, Erase, Take, Put, Deliver, Content, Release, Drop;
    next := first;
    match step {
      case CreateSlot(k) => mux.StartRequest(Decimal(k));
      case Check(k) => var reply := mux.CheckReply(Decimal(k));
      case Consume(k) => mux.DestroyMessage(t.requests[k].msg);
      case Return(k) =>
        ReleaseChangesNothing(t, step);
        mux.EndRequest(Decimal(k));
      case Receive(d) =>
        mux.HandleReply(d.subject, next);
        next := next + 1;
      case DropConnection => ReleaseChangesNothing(t, step);
      case CompleteSubscription => ReleaseChangesNothing(t, step);
      case _ =>
    }
  }

  lemma SameRequest(e: State, t: State, n: nat)
    requires Same(e, t, n)
    ensures n in t.requests
  {
  }

  lemma TimeOf(t: State, step: Step)
    requires Enabled(t, step)
    ensures Next(t, step).now == (if step.Tick? then step.time else t.now) && t.now <= Next(t, step).now
  {
  }

  /** Steps of the other threads. */
  method OtherSteps(mux: ReplyMux, steps: seq<Step>, first: nat, start: int, ghost n: nat, ghost t: State, ghost e: State)
    returns (next: nat, now: int, ghost u: State, ghost f: State)
    requires Tracks(mux, t, first) && Invariant(t) && Same(e, t, n) && t.now == start
    requires CanRun(e, steps) && Foreign(steps, n)
    modifies mux
    ensures Tracks(mux, u, next) && Invariant(u) && Same(f, u, n) && u.now == now
    ensures Leads(t, steps, u) && Leads(e, steps, f)
    ensures n in t.requests && n in u.requests && u.requests[n] == t.requests[n]
    ensures now == TimeAfter(start, steps) && start <= now
  {
    hide Invariant, Same, Enabled, Next, Tracks;
    next, now, u, f := first, start, t, e;
    assert steps[0..] == steps && steps[..0] == [];
    SameRequest(e, t, n);
    for i := 0 to |steps|
      invariant Tracks(mux, u, next) && Invariant(u) && Same(f, u, n) && u.now == now
      invariant CanRun(f, steps[i..])
      invariant Leads(t, steps[..i], u) && Leads(e, steps[..i], f)
      invariant now == TimeAfter(start, steps[..i]) && start <= now
      invariant n in t.requests && n in u.requests && u.requests[n] == t.requests[n]
    {
      var step := steps[i];
      assert steps[i..][0] == step && steps[i..][1..] == steps[i + 1..] && steps[..i + 1] == steps[..i] + [step];
      ForeignStep(f, u, n, step);
      InvariantKept(u, step);
      TimeOf(u, step);
      LeadsOn(t, steps[..i], u, step);
      LeadsOn(e, steps[..i], f, step);
      SameRequest(Next(f, step), Next(u, step), n);
      next := OtherStep(mux, step, next, u);
      now := if step.Tick? then step.time else now;
      assert steps[..i + 1][..i] == steps[..i];
      u, f := Next(u, step), Next(f, step);
    }
    assert steps[..|steps|] == steps;
  }

  lemma {:induction false} CanRunParts(e: State, steps: seq<Step>, more: seq<Step>)
    requires CanRun(e, steps + more)
    ensures CanRun(e, steps) && CanRun(Run(e, steps), more)
    decreases |steps|
  {
    hide Enabled, Next;
    if steps == [] {
      assert [] + more == more;
    } else {
      assert (steps + more)[0] == steps[0] && (steps + more)[1..] == steps[1..] + more;
      CanRunParts(Next(e, steps[0]), steps[1..], more);
    }
  }

  lemma GapComes(gaps: seq<seq<Step>>, n: nat, e: State)
    requires gaps != [] && CanRun(e, AllOthers(gaps)) && Foreign(AllOthers(gaps), n)
    ensures CanRun(e, gaps[0]) && Foreign(gaps[0], n) && Foreign(AllOthers(gaps[1..]), n)
  {
    hide CanRun, Own;
    CanRunParts(e, gaps[0], AllOthers(gaps[1..]));
    var all := AllOthers(gaps);
    assert forall i :: 0 <= i < |gaps[0]| ==> gaps[0][i] == all[i];
    assert forall i :: 0 <= i < |AllOthers(gaps[1..])| ==> AllOthers(gaps[1..])[i] == all[|gaps[0]| + i];
  }

  lemma GapGone(gaps: seq<seq<Step>>, e: State, f: State)
    requires gaps != [] && CanRun(e, AllOthers(gaps)) && Leads(e, gaps[0], f)
    ensures CanRun(f, AllOthers(gaps[1..]))
  {
    CanRunParts(e, gaps[0], AllOthers(gaps[1..]));
  }

  function Rest(gaps: seq<seq<Step>>): seq<seq<Step>> {
    if gaps == [] then [] else gaps[1..]
  }

  /** The request does not hold the mutex: the others go on. */
  method LetOthersRun(mux: ReplyMux, at: Where, ghost n: nat, ghost s: State, ghost gaps: seq<seq<Step>>, ghost tr: Trace)
    returns (later: Where, ghost more: Trace)
    requires Tracks(mux, tr.t, at.next) && Going(s, n, gaps, at, tr, true)
    modifies mux
    ensures Tracks(mux, more.t, later.next) && Going(s, n, gaps, later, more, false)
    ensures n in tr.t.requests && n in more.t.requests && more.t.requests[n] == tr.t.requests[n]
    ensures later.gaps == Rest(at.gaps) && later.now == ClockAfter(at.now, at.gaps, 1) && at.now <= later.now
    ensures more.own == tr.own
  {
    hide Invariant, Same, Leads, Tracks, Woven, Foreign, AllOthers;
    SameRequest(tr.alone, tr.t, n);
    if at.gaps == [] {
      return at, tr;
    }
    var gap := at.gaps[0];
    GapComes(at.gaps, n, tr.alone);
    var next, now;
    ghost var u, f;
    next, now, u, f := OtherSteps(mux, gap, at.next, at.now, n, tr.t, tr.alone);
    LeadsThrough(s, Woven(tr.own, tr.gone), tr.t, gap, u);
    WovenGap(tr.own, tr.gone, gap);
    later, more := Where(now, next, at.gaps[1..]), Trace(tr.own, tr.gone + [gap], u, f);
    assert gaps == (tr.gone + [gap]) + at.gaps[1..];
    GapGone(at.gaps, tr.alone, f);
  }

  // ---------- The code ----------

  /** The checks of the wait loop. */
  function Checks(n: nat, k: nat): seq<Step> {
    seq(k, _ => Check(n))
  }

  /** Each check but the last was followed by a wait that was not interrupted; a wait that was is the last one.  A wait
      is known by the number of gaps that are left after it, of those left before the first check. */
  predicate Waits(interrupts: nat -> bool, left: nat, checks: nat, cancelled: bool) {
    1 <= checks <= left + 1 && (forall i: nat :: left < i + checks && i < left ==> !interrupts(i)) &&
    (cancelled ==> checks <= left && interrupts(left - checks))
  }

  /** What a request does after its last check. */
  function AfterWait(n: nat, end: WaitEnd): seq<Step> {
    match end
    case Got(_) => [Consume(n)]
    case Cancelled => [Interrupt(n)]
    case _ => []
  }

  /** All steps of a request. */
  function RequestSteps(n: nat, timeoutMs: int, end: Option<WaitEnd>, checks: nat): seq<Step> {
    match end
    case None => [CreateSlot(n), FailToPublish(n), Return(n)]
    case Some(e) =>
      [CreateSlot(n), StartWaiting(n, timeoutMs)] + Checks(n, checks) + AfterWait(n, e)
      + if e.StillWaiting? then [] else [Return(n)]
  }

  /** The phase that the wait ended in. */
  predicate EndsAs(end: WaitEnd, p: Phase) {
    match end
    case Got(m) => p.Holding? && p.msg == m
    case Expired => p.Leaving? && p.outcome.TimedOut?
    case Cancelled => p.Leaving? && p.outcome.Interrupted?
    case StillWaiting => p.Waiting?
  }

  lemma SoFar(s: State, n: nat, gaps: seq<seq<Step>>, at: Where, tr: Trace, due: bool)
    requires Going(s, n, gaps, at, tr, due)
    ensures tr.t.now == at.now && Invariant(tr.t) && OwnSteps(tr.own, n)
    ensures Cut(gaps, tr.gone, at.gaps, |tr.own|, due)
    ensures Leads(s, Woven(tr.own, tr.gone), tr.t) && 0 <= at.now < INT64_LIMIT
  {
    hide Consistent, CountRight;
    ClockIs(tr.t);
  }

  /** What a check does to the protocol state. */
  lemma CheckIs(t: State, n: nat)
    requires Enabled(t, Check(n))
    ensures var u := Next(t, Check(n)); var p := t.requests[n];
            u.prefix == t.prefix && u.history == t.history && u.slots == Take(t.slots, Decimal(n)) && n in u.requests &&
            match Content(t.slots, Decimal(n))
            case Some(m) => u.requests[n].Holding? && u.requests[n].msg == m
            case None =>
              if Remaining(p.deadline, t.now) <= 0 then u.requests[n].Leaving? && u.requests[n].outcome.TimedOut?
              else u.requests[n].Waiting? && u.requests[n].deadline == p.deadline
  {
    hide Take, Content, Decimal, Remaining, WaitMs;
  }

  /** One turn of the wait loop up to the wait. */
  method CheckOnce(mux: ReplyMux, n: nat, deadline: int, at: Where, ghost s: State, ghost gaps: seq<seq<Step>>,
                   ghost tr: Trace)
    returns (end: WaitEnd, ghost more: Trace)
    requires Tracks(mux, tr.t, at.next) && Going(s, n, gaps, at, tr, false)
    requires n in tr.t.requests && tr.t.requests[n].Waiting? && tr.t.requests[n].deadline == deadline
    modifies mux
    ensures Tracks(mux, more.t, at.next) && Going(s, n, gaps, at, more, true)
    ensures n in more.t.requests && EndsAs(end, more.t.requests[n]) && !end.Cancelled?
    ensures end.StillWaiting? ==> more.t.requests[n].deadline == deadline
    ensures end.Expired? ==> Remaining(deadline, at.now) <= 0
    ensures end.StillWaiting? ==> Remaining(deadline, at.now) > 0
    ensures more.own == tr.own + [Check(n)] && 0 <= at.now < INT64_LIMIT
  {
    hide Going, Next, Take, Content, Remaining, Decimal, Invariant, Leads, Cut, OwnSteps, Woven;
    SoFar(s, n, gaps, at, tr, false);
    CheckIs(tr.t, n);
    var reply := mux.CheckReply(Decimal(n));
    GoesOn(s, n, gaps, at, tr, Check(n));
    more := On(tr, Check(n));
    if reply.Some? {
      return Got(reply.value), more;
    }
    var remaining := Remaining(deadline, at.now);
    end := if remaining <= 0 then Expired else StillWaiting;
  }

  /** The wait ended with an interruption. */
  method InterruptWait(mux: ReplyMux, n: nat, at: Where, ghost s: State, ghost gaps: seq<seq<Step>>, ghost tr: Trace)
    returns (end: WaitEnd, ghost more: Trace)
    requires Tracks(mux, tr.t, at.next) && Going(s, n, gaps, at, tr, false)
    requires n in tr.t.requests && tr.t.requests[n].Waiting?
    ensures Tracks(mux, more.t, at.next) && Going(s, n, gaps, at, more, true)
    ensures n in more.t.requests && EndsAs(end, more.t.requests[n]) && end.Cancelled?
    ensures more.own == tr.own + [Interrupt(n)]
  {
    hide Going;
    GoesOn(s, n, gaps, at, tr, Interrupt(n));
    more := On(tr, Interrupt(n));
    end := Cancelled;
  }

  /** The last check was followed by a wait, or would have been. */
  function Again(end: WaitEnd): nat {
    if end.Cancelled? || end.StillWaiting? then 1 else 0
  }

  predicate TimeLeft(deadline: int, start: int, now: int) {
    start <= now < INT64_LIMIT && Remaining(deadline, now) > 0
  }

  lemma OneMoreCheck(own: seq<Step>, n: nat, checks: nat)
    ensures own + Checks(n, checks) + [Check(n)] == own + Checks(n, checks + 1)
  {
    assert Checks(n, checks) + [Check(n)] == Checks(n, checks + 1);
  }

  lemma NoWait(at: Where, own: seq<Step>, n: nat)
    ensures at.gaps[0..] == at.gaps && own + Checks(n, 0) == own && ClockAfter(at.now, at.gaps, 0) == at.now
  {
  }

  /** The wait loop.  The thread may be interrupted in any wait.  A run that was not observed to its end is still
      waiting.  The last check was made at the time checked. */
  method WaitForReply(mux: ReplyMux, n: nat, deadline: int, interrupts: nat -> bool, at: Where, ghost s: State,
                      ghost gaps: seq<seq<Step>>, ghost tr: Trace)
    returns (end: WaitEnd, later: Where, ghost more: Trace, ghost checks: nat, ghost checked: int)
    requires Tracks(mux, tr.t, at.next) && Going(s, n, gaps, at, tr, false)
    requires n in tr.t.requests && tr.t.requests[n].Waiting? && tr.t.requests[n].deadline == deadline
    modifies mux
    ensures Tracks(mux, more.t, later.next) && Going(s, n, gaps, later, more, true)
    ensures n in more.t.requests && EndsAs(end, more.t.requests[n])
    ensures end.StillWaiting? ==> later.gaps == []
    ensures checks > 0 && Waits(interrupts, |at.gaps|, checks, end.Cancelled?)
    ensures more.own == tr.own + Checks(n, checks) + if end.Cancelled? then [Interrupt(n)] else []
    ensures checked == ClockAfter(at.now, at.gaps, checks - 1) && at.now <= checked < INT64_LIMIT
    ensures end.Expired? ==> Remaining(deadline, checked) <= 0
    ensures forall i: nat :: i + 1 < checks + Again(end) ==> TimeLeft(deadline, at.now, ClockAfter(at.now, at.gaps, i))
  {
    hide Going, Tracks, ClockAfter, Remaining;
    later, more := at, tr;
    checks, checked := 0, at.now;
    NoWait(at, tr.own, n);
    while true
      invariant Tracks(mux, more.t, later.next) && Going(s, n, gaps, later, more, false)
      invariant n in more.t.requests && more.t.requests[n].Waiting? && more.t.requests[n].deadline == deadline
      invariant checks <= |at.gaps| && later.gaps == at.gaps[checks..] && more.own == tr.own + Checks(n, checks)
      invariant later.now == ClockAfter(at.now, at.gaps, checks) && at.now <= later.now
      invariant forall i: nat :: |at.gaps| <= i + checks && i < |at.gaps| ==> !interrupts(i)
      invariant forall i: nat :: i < checks ==> TimeLeft(deadline, at.now, ClockAfter(at.now, at.gaps, i))
      decreases |later.gaps|
    {
      checked := later.now;
      end, more := CheckOnce(mux, n, deadline, later, s, gaps, more);
      OneMoreCheck(tr.own, n, checks);
      checks := checks + 1;
      if !end.StillWaiting? || later.gaps == [] {
        assert more.own + [] == more.own;
        return;
      }
      ClockStep(at.now, at.gaps, checks - 1);
      later, more := LetOthersRun(mux, later, n, s, gaps, more);
      if interrupts(|later.gaps|) {
        end, more := InterruptWait(mux, n, later, s, gaps, more);
        return;
      }
    }
  }

  /** The outcome that goes with the end of the wait. */
  predicate OutcomeIs(end: WaitEnd, outcome: Outcome) {
    match end
    case Got(m) => outcome == Replied(m) || outcome == NobodyResponds(m)
    case Expired => outcome.TimedOut?
    case Cancelled => outcome.Interrupted?
    case StillWaiting => false
  }

  /** A reply that was taken is looked at and destroyed. */
  method ConsumeReply(mux: ReplyMux, n: nat, end: WaitEnd, at: Where, ghost s: State, ghost gaps: seq<seq<Step>>,
                      ghost tr: Trace)
    returns (later: Where, ghost more: Trace)
    requires Tracks(mux, tr.t, at.next) && Going(s, n, gaps, at, tr, true)
    requires n in tr.t.requests && EndsAs(end, tr.t.requests[n]) && !end.StillWaiting?
    modifies mux
    ensures Tracks(mux, more.t, later.next) && Going(s, n, gaps, later, more, true) && n in more.t.requests
    ensures more.t.requests[n].Leaving? && OutcomeIs(end, more.t.requests[n].outcome)
    ensures more.own == tr.own + if end.Got? then [Consume(n)] else []
  {
    hide Going, Destroy;
    later, more := at, tr;
    if end.Got? {
      later, more := LetOthersRun(mux, at, n, s, gaps, tr);
      mux.DestroyMessage(end.msg);
      GoesOn(s, n, gaps, later, more, Consume(n));
      more := On(more, Consume(n));
    }
  }

  /** The milliseconds of a timeout are over, to less than a microsecond. */
  predicate Over(start: int, timeoutMs: int, now: int) {
    timeoutMs <= 0 || now - start > 1_000_000 * timeoutMs - 1000
  }

  /** A timeout that was raised was due, to less than a microsecond, unless its nanoseconds overflow. */
  predicate Due(started: int, timeoutMs: int, checked: int) {
    Overflows(started, timeoutMs) || checked + NS_PER_US > started + Nanoseconds(timeoutMs)
  }

  lemma ClockFrom(at: Where, later: Where, k: nat)
    requires later.gaps == Rest(at.gaps) && later.now == ClockAfter(at.now, at.gaps, 1)
    ensures ClockAfter(later.now, later.gaps, k) == ClockAfter(at.now, at.gaps, k + 1)
  {
    if at.gaps != [] {
      assert ClockAfter(at.now, at.gaps, 1) == TimeAfter(at.now, at.gaps[0]);
    }
  }

  lemma ExpiredIsDue(started: int, timeoutMs: int, checked: int)
    requires 0 <= started <= checked < INT64_LIMIT && Remaining(Deadline(started, timeoutMs), checked) <= 0
    ensures Due(started, timeoutMs, checked)
  {
    hide Overflows, Remaining, Deadline, Nanoseconds;
    if !Overflows(started, timeoutMs) {
      ExpiresInTime(started, timeoutMs, checked);
    }
  }

  /** The time is over at the last check if the timeout is raised there, and at no check that a wait follows.  The
      checks are made after the gaps from the first on. */
  predicate OverAtLast(end: WaitEnd, at: Where, timeoutMs: int, checks: nat) {
    (end.Expired? ==> Over(at.now, timeoutMs, ClockAfter(at.now, at.gaps, checks))) &&
    forall i: nat :: 1 <= i < checks + Again(end) ==> !Over(at.now, timeoutMs, ClockAfter(at.now, at.gaps, i))
  }

  lemma OverAtLastCheck(end: WaitEnd, at: Where, later: Where, timeoutMs: int, checks: nat)
    requires later.gaps == Rest(at.gaps) && later.now == ClockAfter(at.now, at.gaps, 1) && at.now <= later.now
    requires 0 <= at.now && 1_000_000 * timeoutMs < 0x8000_0000_0000_0000 && checks > 0
    requires var deadline := Deadline(at.now, timeoutMs); var last := ClockAfter(later.now, later.gaps, checks - 1);
             (forall i: nat :: i + 1 < checks + Again(end) ==>
                                 TimeLeft(deadline, later.now, ClockAfter(later.now, later.gaps, i))) &&
             (end.Expired? ==> later.now <= last < INT64_LIMIT && Remaining(deadline, last) <= 0)
    ensures OverAtLast(end, at, timeoutMs, checks)
  {
    hide ClockAfter, Deadline, Remaining, Rest;
    if end.Expired? {
      ClockFrom(at, later, checks - 1);
      OverExactly(at.now, timeoutMs, ClockAfter(at.now, at.gaps, checks));
    }
    forall i: nat | 1 <= i < checks + Again(end) ensures !Over(at.now, timeoutMs, ClockAfter(at.now, at.gaps, i)) {
      ClockFrom(at, later, i - 1);
      assert TimeLeft(Deadline(at.now, timeoutMs), later.now, ClockAfter(later.now, later.gaps, i - 1));
      OverExactly(at.now, timeoutMs, ClockAfter(at.now, at.gaps, i));
    }
  }

  /** The request was published: its wait begins. */
  method StartWait(mux: ReplyMux, n: nat, timeoutMs: int, at: Where, ghost s: State, ghost gaps: seq<seq<Step>>,
                   ghost tr: Trace)
    returns (later: Where, ghost more: Trace)
    requires Tracks(mux, tr.t, at.next) && Going(s, n, gaps, at, tr, false) && timeoutMs < INT64_LIMIT
    requires n in tr.t.requests && tr.t.requests[n].Inserted?
    modifies mux
    ensures Tracks(mux, more.t, later.next) && Going(s, n, gaps, later, more, false)
    ensures n in more.t.requests && more.t.requests[n].Waiting?
    ensures more.t.requests[n].deadline == Deadline(at.now, timeoutMs)
    ensures later.gaps == Rest(at.gaps) && later.now == ClockAfter(at.now, at.gaps, 1) && at.now <= later.now
    ensures more.own == tr.own + [StartWaiting(n, timeoutMs)]
  {
    hide Going, Decimal, Deadline, Invariant, Leads, Cut, OwnSteps, Woven;
    SoFar(s, n, gaps, at, tr, false);
    GoesOn(s, n, gaps, at, tr, StartWaiting(n, timeoutMs));
    later, more := LetOthersRun(mux, at, n, s, gaps, On(tr, StartWaiting(n, timeoutMs)));
  }

  /** A published request: it waits for the reply and takes it. */
  method PublishAndWait(mux: ReplyMux, n: nat, timeoutMs: int, interrupts: nat -> bool, at: Where, ghost s: State,
                        ghost gaps: seq<seq<Step>>, ghost tr: Trace)
    returns (end: WaitEnd, later: Where, ghost more: Trace, ghost checks: nat)
    requires Tracks(mux, tr.t, at.next) && Going(s, n, gaps, at, tr, false) && timeoutMs < INT64_LIMIT
    requires n in tr.t.requests && tr.t.requests[n].Inserted?
    modifies mux
    ensures Tracks(mux, more.t, later.next) && Going(s, n, gaps, later, more, true) && n in more.t.requests
    ensures end.StillWaiting? ==> later.gaps == [] && more.t.requests[n].Waiting?
    ensures !end.StillWaiting? ==> more.t.requests[n].Leaving? && OutcomeIs(end, more.t.requests[n].outcome)
    ensures Waits(interrupts, |Rest(at.gaps)|, checks, end.Cancelled?)
    ensures more.own == tr.own + [StartWaiting(n, timeoutMs)] + Checks(n, checks) + AfterWait(n, end)
    ensures end.Expired? ==> Due(at.now, timeoutMs, ClockAfter(at.now, at.gaps, checks))
    ensures 1_000_000 * timeoutMs < 0x8000_0000_0000_0000 ==> OverAtLast(end, at, timeoutMs, checks)
  {
    hide Going, Tracks, Deadline, Invariant, Leads, Cut, OwnSteps, Woven, Checks, Waits, Due, ClockAfter, Remaining,
      OutcomeIs, Rest, OverAtLast, TimeLeft;
    SoFar(s, n, gaps, at, tr, false);
    later, more := StartWait(mux, n, timeoutMs, at, s, gaps, tr);
    ghost var first, checked := later, at.now;
    end, later, more, checks, checked :=
      WaitForReply(mux, n, Deadline(at.now, timeoutMs), interrupts, later, s, gaps, more);
    ClockFrom(at, first, checks - 1);
    if 1_000_000 * timeoutMs < 0x8000_0000_0000_0000 {
      OverAtLastCheck(end, at, first, timeoutMs, checks);
    }
    if end.Expired? {
      ExpiredIsDue(at.now, timeoutMs, checked);
    }
    if !end.StillWaiting? {
      later, more := ConsumeReply(mux, n, end, later, s, gaps, more);
    }
  }

  /** The end of the request: replies can still arrive before its slot is removed, and are destroyed with it. */
  method LeaveRequest(mux: ReplyMux, n: nat, at: Where, ghost s: State, ghost gaps: seq<seq<Step>>, ghost tr: Trace)
    returns (later: Where, ghost more: Trace)
    requires Tracks(mux, tr.t, at.next) && Going(s, n, gaps, at, tr, true)
    requires n in tr.t.requests && tr.t.requests[n].Leaving?
    modifies mux
    ensures Leads(s, Woven(more.own, more.gone), more.t) && OwnSteps(more.own, n)
    ensures Cut(gaps, more.gone, later.gaps, |more.own|, true)
    ensures Tracks(mux, more.t, later.next) && n in more.t.requests
    ensures more.t.requests[n] ==
            Finished(tr.t.requests[n].since, tr.t.requests[n].until, tr.t.requests[n].outcome)
    ensures more.own == tr.own + [Return(n)]
  {
    hide Going, Decimal, Erase, Invariant, Leads, Woven;
    later, more := LetOthersRun(mux, at, n, s, gaps, tr);
    SoFar(s, n, gaps, later, more, false);
    ReleaseChangesNothing(more.t, Return(n));
    LeadsOn(s, Woven(more.own, more.gone), more.t, Return(n));
    WovenStep(more.own, more.gone, Return(n));
    mux.EndRequest(Decimal(n));
    more := On(more, Return(n));
  }

  lemma StartGoing(s: State, n: nat, at: Where)
    requires Invariant(s) && n in s.requests && s.now == at.now
    requires CanRun(s, AllOthers(at.gaps)) && Foreign(AllOthers(at.gaps), n)
    ensures Going(s, n, at.gaps, at, Trace([], [], s, s), false)
  {
    hide Consistent;
    NoSteps(s);
    NumbersSoFar(s);
    assert [] + at.gaps == at.gaps;
  }

  lemma OverFrom(end: WaitEnd, at: Where, later: Where, timeoutMs: int, checks: nat)
    requires later.gaps == Rest(at.gaps) && later.now == ClockAfter(at.now, at.gaps, 1)
    requires OverAtLast(end, later, timeoutMs, checks)
    ensures end.Expired? ==> Over(later.now, timeoutMs, ClockAfter(at.now, at.gaps, checks + 1))
    ensures forall i: nat :: 2 <= i < checks + 1 + Again(end) ==>
                               !Over(later.now, timeoutMs, ClockAfter(at.now, at.gaps, i))
  {
    hide ClockAfter, Rest, Over;
    ClockFrom(at, later, checks);
    forall i: nat | 2 <= i < checks + 1 + Again(end) ensures !Over(later.now, timeoutMs, ClockAfter(at.now, at.gaps, i)) {
      ClockFrom(at, later, i - 1);
    }
  }

  /** The slot of the request is created. */
  method Insert(mux: ReplyMux, n: nat, at: Where, ghost s: State) returns (later: Where, ghost more: Trace)
    requires Tracks(mux, s, at.next) && Invariant(s) && s.now == at.now
    requires n in s.requests && s.requests[n].Numbered?
    requires CanRun(s, AllOthers(at.gaps)) && Foreign(AllOthers(at.gaps), n)
    modifies mux
    ensures Tracks(mux, more.t, later.next) && Going(s, n, at.gaps, later, more, false)
    ensures n in more.t.requests && more.t.requests[n].Inserted? && more.own == [CreateSlot(n)]
    ensures later.gaps == Rest(at.gaps) && later.now == ClockAfter(at.now, at.gaps, 1)
  {
    hide Going, Put, Decimal, Leads, Woven, Cut, OwnSteps, Invariant, CanRun, Foreign, AllOthers;
    ghost var tr := Trace([], [], s, s);
    StartGoing(s, n, at);
    mux.StartRequest(Decimal(n));
    GoesOn(s, n, at.gaps, at, tr, CreateSlot(n));
    later, more := LetOthersRun(mux, at, n, s, at.gaps, On(tr, CreateSlot(n)));
  }

  /** The request could not be published. */
  method FailRequest(mux: ReplyMux, n: nat, at: Where, ghost s: State, ghost gaps: seq<seq<Step>>, ghost tr: Trace)
    returns (ghost more: Trace)
    requires Tracks(mux, tr.t, at.next) && Going(s, n, gaps, at, tr, false)
    requires n in tr.t.requests && tr.t.requests[n].Inserted?
    ensures Tracks(mux, more.t, at.next) && Going(s, n, gaps, at, more, true)
    ensures n in more.t.requests && more.t.requests[n].Leaving? && more.t.requests[n].outcome.PublishFailed?
    ensures more.own == tr.own + [FailToPublish(n)]
  {
    hide Going;
    GoesOn(s, n, gaps, at, tr, FailToPublish(n));
    more := On(tr, FailToPublish(n));
  }

  lemma StepsAre(n: nat, timeoutMs: int, end: Option<WaitEnd>, checks: nat)
    ensures end.None? ==> [CreateSlot(n)] + [FailToPublish(n)] + [Return(n)] == RequestSteps(n, timeoutMs, end, checks)
    ensures end.Some? ==>
              var own := [CreateSlot(n)] + [StartWaiting(n, timeoutMs)] + Checks(n, checks) + AfterWait(n, end.value);
              RequestSteps(n, timeoutMs, end, checks) == if end.value.StillWaiting? then own else own + [Return(n)]
  {
    hide Checks, AfterWait;
    assert [CreateSlot(n)] + [StartWaiting(n, timeoutMs)] == [CreateSlot(n), StartWaiting(n, timeoutMs)];
  }

  /** A whole request, from the creation of its slot on, with the steps of the others in the gaps between its own.  A
      request whose wait was not observed to its end has not finished.  It waits for the timeout that it was given, from
      the time after the first gap on, and is interrupted only where its thread is. */
  method Request(mux: ReplyMux, n: nat, published: bool, timeoutMs: int, interrupts: nat -> bool, at: Where,
                 ghost s: State)
    returns (end: Option<WaitEnd>, later: Where, ghost more: Trace, ghost checks: nat)
    requires Tracks(mux, s, at.next) && Invariant(s) && s.now == at.now && timeoutMs < INT64_LIMIT
    requires n in s.requests && s.requests[n].Numbered?
    requires CanRun(s, AllOthers(at.gaps)) && Foreign(AllOthers(at.gaps), n)
    modifies mux
    ensures Leads(s, Woven(more.own, more.gone), more.t) && more.own == RequestSteps(n, timeoutMs, end, checks)
    ensures Cut(at.gaps, more.gone, later.gaps, |more.own|, true)
    ensures Tracks(mux, more.t, later.next) && n in more.t.requests
    ensures end.None? <==> !published
    ensures if end == Some(StillWaiting) then later.gaps == [] && more.t.requests[n].Waiting?
            else more.t.requests[n].Finished?
    ensures more.t.requests[n].Finished? ==>
              var outcome := more.t.requests[n].outcome;
              if end.None? then outcome.PublishFailed? else OutcomeIs(end.value, outcome)
    ensures published ==> Waits(interrupts, |Rest(Rest(at.gaps))|, checks, end == Some(Cancelled))
    ensures end == Some(Expired) ==>
              Due(ClockAfter(at.now, at.gaps, 1), timeoutMs, ClockAfter(at.now, at.gaps, checks + 1))
    ensures published && 1_000_000 * timeoutMs < 0x8000_0000_0000_0000 ==>
              var start := ClockAfter(at.now, at.gaps, 1);
              (end == Some(Expired) ==> Over(start, timeoutMs, ClockAfter(at.now, at.gaps, checks + 1))) &&
              forall i: nat :: 2 <= i < checks + 1 + Again(end.value) ==>
                                 !Over(start, timeoutMs, ClockAfter(at.now, at.gaps, i))
  {
    hide Going, Tracks, Leads, Woven, Cut, OwnSteps, Invariant, CanRun, Foreign, AllOthers, Checks, Waits, Due,
      ClockAfter, RequestSteps, OutcomeIs, AfterWait, Rest, OverAtLast, Over;
    ghost var gaps := at.gaps;
    checks := 0;
    later, more := Insert(mux, n, at, s);
    ghost var first := later;
    end := None;
    if !published {
      more := FailRequest(mux, n, later, s, gaps, more);
    } else {
      var e;
      e, later, more, checks := PublishAndWait(mux, n, timeoutMs, interrupts, later, s, gaps, more);
      end := Some(e);
    }
    StepsAre(n, timeoutMs, end, checks);
    ClockFrom(at, first, checks);
    if published && 1_000_000 * timeoutMs < 0x8000_0000_0000_0000 {
      OverFrom(end.value, at, first, timeoutMs, checks);
    }
    if end == Some(StillWaiting) {
      SoFar(s, n, gaps, later, more, true);
    } else {
      later, more := LeaveRequest(mux, n, later, s, gaps, more);
    }
  }
}
