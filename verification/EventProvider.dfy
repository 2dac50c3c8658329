/** The observable data providers: a loop that passes the messages of a subscription to its observers, raced by any
    number of threads that start it or stop it.

    The three providers (subscribe, queue subscribe, JetStream pull subscribe) are the same machine.
*/
module EventProvider {
  import opened Wrappers
  import opened Interleaving

  type Message = nat

  datatype Event = MessageEvent(msg: Message) | CompleteEvent | ErrorEvent

  /** The fields protected by the provider's mutex. */
  datatype Flags = Flags(started: bool, stopping: bool, active: bool)

  // ---------- The protocol ----------

  /** Where the background loop is: at the iterator, with a message before or after the check of the flag, on its way
      out without or with an exception, or about to raise its last event. */
  datatype Phase =
    | NotStarted
    | AtIterator
    | Looking(msg: Message)
    | Notifying(msg: Message)
    | Closing
    | Completing
    | Catching
    | Failing
    | Finished

  /** The threads that may still start the loop are those between the first check and the subscription. */
  datatype State = State(flags: Flags, phase: Phase, starting: nat, loops: nat, iterated: seq<Message>,
                         events: seq<Event>, stopMark: Option<nat>, idleMark: Option<nat>)

  datatype Step =
    | Ready
    | SubscribeFails
    | Spawn
    | Stop
    | Yield(msg: Message)
    | IteratorEnds
    | IteratorRaises
    | Look
    | Notify(raises: bool)
    | Deactivate
    | NotifyComplete(raises: bool)
    | NotifyError

  function Initial(): State {
    State(Flags(false, false, true), NotStarted, 0, 0, [], [], None, None)
  }

  predicate Enabled(s: State, step: Step) {
    match step
    case Ready => true
    case SubscribeFails => s.starting > 0
    case Spawn => s.starting > 0
    case Stop => true
    case Yield(_) => s.phase.AtIterator?
    case IteratorEnds => s.phase.AtIterator?
    case IteratorRaises => s.phase.AtIterator?
    case Look => s.phase.Looking?
    case Notify(_) => s.phase.Notifying?
    case Deactivate => s.phase.Closing? || s.phase.Catching?
    case NotifyComplete(_) => s.phase.Completing?
    case NotifyError => s.phase.Failing?
  }

  function Mark(mark: Option<nat>, events: seq<Event>): Option<nat> {
    if mark.Some? then mark else Some(|events|)
  }

  function Next(s: State, step: Step): State
    requires Enabled(s, step)
  {
    match step
    case Ready =>
      if s.flags.started then s else s.(flags := s.flags.(started := true), starting := s.starting + 1)
    case SubscribeFails => s.(starting := s.starting - 1)
    case Spawn => s.(starting := s.starting - 1, loops := s.loops + 1, phase := AtIterator)
    case Stop => s.(flags := s.flags.(stopping := true), stopMark := Mark(s.stopMark, s.events))
    case Yield(m) => s.(phase := Looking(m), iterated := s.iterated + [m])
    case IteratorEnds => s.(phase := Closing)
    case IteratorRaises => s.(phase := Catching)
    case Look => s.(phase := if s.flags.stopping then Closing else Notifying(s.phase.msg))
    case Notify(raises) =>
      s.(phase := if raises then Catching else AtIterator, events := s.events + [MessageEvent(s.phase.msg)])
    case Deactivate =>
      s.(phase := if s.phase.Closing? then Completing else Failing, flags := s.flags.(active := false),
         idleMark := Mark(s.idleMark, s.events))
    case NotifyComplete(raises) =>
      s.(phase := if raises then Catching else Finished, events := s.events + [CompleteEvent])
    case NotifyError => s.(phase := Finished, events := s.events + [ErrorEvent])
  }

  /** The message events for some messages. */
  function Sent(msgs: seq<Message>): (events: seq<Event>)
    ensures |events| == |msgs|
    ensures forall i :: 0 <= i < |msgs| ==> events[i] == MessageEvent(msgs[i])
  {
    seq(|msgs|, i requires 0 <= i < |msgs| => MessageEvent(msgs[i]))
  }

  function Messages(events: seq<Event>): nat {
    if events == [] then 0 else Messages(events[..|events| - 1]) + if events[|events| - 1].MessageEvent? then 1 else 0
  }

  /** The last events of the loop at each of its phases. */
  predicate EndsRight(phase: Phase, end: seq<Event>) {
    match phase
    case NotStarted => end == []
    case AtIterator => end == []
    case Looking(_) => end == []
    case Notifying(_) => end == []
    case Closing => end == []
    case Completing => end == []
    case Catching => end == [] || end == [CompleteEvent]
    case Failing => end == [] || end == [CompleteEvent]
    case Finished => end == [CompleteEvent] || end == [ErrorEvent] || end == [CompleteEvent, ErrorEvent]
  }

  /** The number of messages that the observers have seen, of those iterated. */
  predicate CountRight(s: State, n: nat)
    requires n <= |s.iterated|
  {
    match s.phase
    case NotStarted => s.iterated == []
    case AtIterator => n == |s.iterated|
    case Looking(m) => n + 1 == |s.iterated| && s.iterated[n] == m
    case Notifying(m) => n + 1 == |s.iterated| && s.iterated[n] == m
    case _ => n + 1 >= |s.iterated|
  }

  /** The events so far are those of the first messages, followed by the end of the loop. */
  ghost predicate EventsRight(s: State, n: nat) {
    n <= |s.iterated| && n <= |s.events| && CountRight(s, n) && s.events[..n] == Sent(s.iterated[..n]) &&
    EndsRight(s.phase, s.events[n..])
  }

  predicate MarksRight(s: State) {
    (s.flags.stopping <==> s.stopMark.Some?) && (!s.flags.active <==> s.idleMark.Some?) &&
    (s.stopMark.Some? ==>
       s.stopMark.value <= |s.events| &&
       Messages(s.events[s.stopMark.value..]) + (if s.phase.Notifying? then 1 else 0) <= 1) &&
    (s.idleMark.Some? ==> s.idleMark.value <= |s.events| && Messages(s.events[s.idleMark.value..]) == 0) &&
    (s.idleMark.Some? <==> s.phase.Completing? || s.phase.Failing? || s.phase.Finished? ||
                           (s.phase.Catching? && CompleteEvent in s.events))
  }

  predicate LoopsRight(s: State) {
    s.loops + s.starting <= 1 && (s.loops + s.starting == 1 ==> s.flags.started) && (s.loops == 0 <==> s.phase.NotStarted?)
  }

  ghost predicate Invariant(s: State) {
    (exists n :: EventsRight(s, n)) && MarksRight(s) && LoopsRight(s)
  }

  lemma MessagesAppend(events: seq<Event>, e: Event)
    ensures Messages(events + [e]) == Messages(events) + if e.MessageEvent? then 1 else 0
  {
    assert (events + [e])[..|events|] == events;
  }

  /** An event at the end of the events since a mark. */
  lemma SinceMark(events: seq<Event>, mark: nat, e: Event)
    requires mark <= |events|
    ensures Messages((events + [e])[mark..]) == Messages(events[mark..]) + if e.MessageEvent? then 1 else 0
  {
    assert (events + [e])[mark..] == events[mark..] + [e];
    MessagesAppend(events[mark..], e);
  }

  lemma EventsKept(s: State, step: Step, n: nat) returns (m: nat)
    requires EventsRight(s, n) && LoopsRight(s) && Enabled(s, step)
    ensures EventsRight(Next(s, step), m)
  {
    var t := Next(s, step);
    m := if step.Notify? then n + 1 else n;
    if step.Notify? {
      assert t.iterated[..n + 1] == s.iterated[..n] + [s.iterated[n]];
      assert t.events[..n + 1] == s.events[..n] + [MessageEvent(s.iterated[n])];
    } else if step.Yield? {
      assert t.iterated[..n] == s.iterated[..n];
    } else if step.NotifyComplete? {
      assert t.events[..n] == s.events[..n] && t.events[n..] == s.events[n..] + [CompleteEvent];
    } else if step.NotifyError? {
      assert t.events[..n] == s.events[..n] && t.events[n..] == s.events[n..] + [ErrorEvent];
    }
  }

  lemma NoCompleteYet(s: State, n: nat)
    requires EventsRight(s, n)
    ensures CompleteEvent in s.events <==> CompleteEvent in s.events[n..]
  {
    assert s.events == s.events[..n] + s.events[n..];
  }

  lemma NoMessages()
    ensures Messages([]) == 0
  {
  }

  lemma MarksKept(s: State, step: Step, n: nat)
    requires EventsRight(s, n) && MarksRight(s) && LoopsRight(s) && Enabled(s, step)
    ensures MarksRight(Next(s, step))
  {
    hide CountRight, Messages, Sent;
    NoCompleteYet(s, n);
    assert s.events[|s.events|..] == [];
    NoMessages();
    var added := if step.Notify? then Some(MessageEvent(s.phase.msg))
                 else if step.NotifyComplete? then Some(CompleteEvent)
                 else if step.NotifyError? then Some(ErrorEvent) else None;
    if added.Some? {
      if s.stopMark.Some? {
        SinceMark(s.events, s.stopMark.value, added.value);
      }
      if s.idleMark.Some? {
        SinceMark(s.events, s.idleMark.value, added.value);
      }
    }
  }

  lemma InvariantKept(s: State, step: Step)
    requires Invariant(s) && Enabled(s, step)
    ensures Invariant(Next(s, step))
  {
    hide EventsRight, MarksRight;
    var n :| EventsRight(s, n);
    var m := EventsKept(s, step, n);
    MarksKept(s, step, n);
  }

  ghost predicate Leads(s: State, steps: seq<Step>, t: State)
    decreases |steps|
  {
    if steps == [] then t == s else Enabled(s, steps[0]) && Leads(Next(s, steps[0]), steps[1..], t)
  }

  ghost predicate Reachable(s: State) {
    exists steps: seq<Step> :: Leads(Initial(), steps, s)
  }

  lemma {:induction false} RunInvariant(s: State, steps: seq<Step>, t: State)
    requires Invariant(s) && Leads(s, steps, t)
    ensures Invariant(t)
    decreases |steps|
  {
    hide Invariant, Enabled, Next;
    if steps == [] {
    } else {
      InvariantKept(s, steps[0]);
      RunInvariant(Next(s, steps[0]), steps[1..], t);
    }
  }

  lemma StartInvariant()
    ensures Invariant(Initial())
  {
    assert EventsRight(Initial(), 0);
  }

  lemma ReachableInvariant(s: State)
    requires Reachable(s)
    ensures Invariant(s)
  {
    hide Leads, Invariant;
    var steps: seq<Step> :| Leads(Initial(), steps, s);
    StartInvariant();
    RunInvariant(Initial(), steps, s);
  }

  // ---------- What holds in every interleaving ----------

  /** The observers see the iterated messages in order, all of them but possibly the last, and then the end of the loop:
      one terminal event, or an error after the completion if an observer raised an exception for it. */
  lemma ObserversSeeAPrefix(s: State) returns (n: nat)
    requires Reachable(s)
    ensures n <= |s.iterated| <= n + 1 && n <= |s.events| && s.events[..n] == Sent(s.iterated[..n])
    ensures s.phase.Finished? ==>
              s.events[n..] == [CompleteEvent] || s.events[n..] == [ErrorEvent] ||
              s.events[n..] == [CompleteEvent, ErrorEvent]
    ensures !s.phase.Finished? ==> s.events[n..] == [] || s.events[n..] == [CompleteEvent]
  {
    hide Reachable, Sent;
    ReachableInvariant(s);
    n :| EventsRight(s, n);
  }

  /** At most one message is seen after a stop was requested, and none after the provider became inactive. */
  lemma StopsSoon(s: State)
    requires Reachable(s)
    ensures s.stopMark.Some? ==> s.stopMark.value <= |s.events| && Messages(s.events[s.stopMark.value..]) <= 1
    ensures s.idleMark.Some? ==> s.idleMark.value <= |s.events| && Messages(s.events[s.idleMark.value..]) == 0
    ensures s.flags.stopping <==> s.stopMark.Some?
    ensures !s.flags.active <==> s.idleMark.Some?
  {
    hide Reachable, Messages;
    ReachableInvariant(s);
  }

  lemma {:induction false} StopMarkKept(s: State, steps: seq<Step>, t: State)
    requires s.stopMark.Some? && s.stopMark.value <= |s.events| && Leads(s, steps, t)
    ensures t.stopMark == s.stopMark && s.events <= t.events
    decreases |steps|
  {
    if steps == [] {
    } else {
      StopMarkKept(Next(s, steps[0]), steps[1..], t);
    }
  }

  lemma {:induction false} MessagesOfParts(a: seq<Event>, b: seq<Event>)
    ensures Messages(a + b) == Messages(a) + Messages(b)
  {
    if b == [] {
      assert a + b == a;
    } else {
      assert (a + b)[..|a + b| - 1] == a + b[..|b| - 1];
      MessagesOfParts(a, b[..|b| - 1]);
    }
  }

  /** Whenever a stop is requested, at most one more message is shown, whatever happens afterwards. */
  lemma StopIsSeen(s: State, steps: seq<Step>, t: State)
    requires Reachable(s) && Leads(Next(s, Stop), steps, t)
    ensures t.flags.stopping && s.events <= t.events && Messages(t.events[|s.events|..]) <= 1
  {
    hide Reachable, Messages, Leads, EventsRight;
    ReachableInvariant(s);
    InvariantKept(s, Stop);
    var u := Next(s, Stop);
    RunInvariant(u, steps, t);
    StopMarkKept(u, steps, t);
    var mark := t.stopMark.value;
    assert t.events[mark..] == t.events[mark..|s.events|] + t.events[|s.events|..];
    MessagesOfParts(t.events[mark..|s.events|], t.events[|s.events|..]);
  }

  /** A loop that has ended left its provider inactive. */
  lemma EndIsInactive(s: State)
    requires Reachable(s) && s.phase.Finished?
    ensures !s.flags.active
  {
    hide Reachable, EventsRight, Messages;
    ReachableInvariant(s);
  }

  /** However many threads call for the start, one loop runs at most. */
  lemma OneLoop(s: State)
    requires Reachable(s)
    ensures s.loops <= 1
  {
    hide Reachable, EventsRight, MarksRight;
    ReachableInvariant(s);
  }

  /** The loop that told its observers of the completion is on its way to an error, or has told them of it. */
  predicate Overtaken(s: State) {
    CompleteEvent in s.events && (s.phase.Catching? || s.phase.Failing? || (s.phase.Finished? && ErrorEvent in s.events))
  }

  /** The events before the end of the loop are no terminal events. */
  lemma EndOnly(s: State, n: nat)
    requires EventsRight(s, n)
    ensures n <= |s.events| && EndsRight(s.phase, s.events[n..])
    ensures CompleteEvent in s.events <==> CompleteEvent in s.events[n..]
    ensures ErrorEvent in s.events <==> ErrorEvent in s.events[n..]
  {
    hide CountRight, Sent, EndsRight;
    var sent := Sent(s.iterated[..n]);
    assert s.events == sent + s.events[n..];
    assert CompleteEvent !in sent && ErrorEvent !in sent;
  }

  lemma OvertakenByStep(s: State, step: Step)
    requires Invariant(s) && Enabled(s, step)
    ensures Overtaken(Next(s, step)) <==> Overtaken(s) || step == NotifyComplete(true)
  {
    hide MarksRight, EventsRight;
    var n: nat :| EventsRight(s, n);
    EndOnly(s, n);
  }

  predicate CompletionRaised(steps: seq<Step>) {
    NotifyComplete(true) in steps
  }

  lemma {:induction false} OvertakenByRun(s: State, steps: seq<Step>, t: State)
    requires Invariant(s) && Leads(s, steps, t)
    ensures Overtaken(t) <==> Overtaken(s) || CompletionRaised(steps)
    decreases |steps|
  {
    hide Invariant, Enabled, Next, Overtaken;
    if steps == [] {
    } else {
      InvariantKept(s, steps[0]);
      OvertakenByStep(s, steps[0]);
      OvertakenByRun(Next(s, steps[0]), steps[1..], t);
      assert steps == [steps[0]] + steps[1..];
    }
  }

  lemma Terminal(t: State, n: nat)
    requires EventsRight(t, n) && t.phase.Finished?
    ensures CompleteEvent in t.events || ErrorEvent in t.events
  {
    assert t.events[n] in t.events;
  }

  /** The observers of a loop that ended have seen both terminal events if and only if one of them raised an exception
      for the completion; otherwise they have seen one. */
  lemma TwoEndsExactlyIfRaised(steps: seq<Step>, t: State)
    requires Leads(Initial(), steps, t) && t.phase.Finished?
    ensures CompleteEvent in t.events && ErrorEvent in t.events <==> CompletionRaised(steps)
    ensures CompleteEvent in t.events || ErrorEvent in t.events
  {
    hide Leads, EventsRight, MarksRight, Sent;
    StartInvariant();
    OvertakenByRun(Initial(), steps, t);
    RunInvariant(Initial(), steps, t);
    var n: nat :| EventsRight(t, n);
    Terminal(t, n);
  }

  lemma NothingYet(s: State)
    ensures Leads(s, [], s)
  {
  }

  lemma {:induction false} LeadsOn(s: State, steps: seq<Step>, t: State, step: Step)
    requires Leads(s, steps, t) && Enabled(t, step)
    ensures Leads(s, steps + [step], Next(t, step))
    decreases |steps|
  {
    hide Next, Enabled;
    if steps == [] {
      assert steps + [step] == [step] && [step][1..] == [];
      assert Leads(Next(s, step), [], Next(s, step));
    } else {
      LeadsOn(Next(s, steps[0]), steps[1..], t, step);
      assert (steps + [step])[1..] == steps[1..] + [step] && (steps + [step])[0] == steps[0];
    }
  }

  lemma OneStepOn(steps: seq<Step>, t: State, step: Step) returns (more: seq<Step>, u: State)
    requires Leads(Initial(), steps, t) && Enabled(t, step)
    ensures Leads(Initial(), more, u) && more == steps + [step] && u == Next(t, step)
  {
    LeadsOn(Initial(), steps, t, step);
    more, u := steps + [step], Next(t, step);
  }

  /** A run whose observers see both: one of them raises an exception for the completion. */
  lemma BothEnds() returns (steps: seq<Step>, t: State)
    ensures Leads(Initial(), steps, t) && t.phase.Finished? && t.events == [CompleteEvent, ErrorEvent]
  {
    hide Leads;
    steps, t := [], Initial();
    NothingYet(t);
    steps, t := OneStepOn(steps, t, Ready);
    steps, t := OneStepOn(steps, t, Spawn);
    steps, t := OneStepOn(steps, t, IteratorEnds);
    steps, t := OneStepOn(steps, t, Deactivate);
    steps, t := OneStepOn(steps, t, NotifyComplete(true));
    steps, t := OneStepOn(steps, t, Deactivate);
    steps, t := OneStepOn(steps, t, NotifyError);
  }

  // ---------- The code ----------

  class Provider {
    var started: bool
    var stopping: bool
    var active: bool

    constructor ()
      ensures View() == Initial().flags
    {
      started, stopping, active := false, false, true;
    }

    ghost function View(): Flags
      reads this
    {
      Flags(started, stopping, active)
    }

    /** The locked region of observersReady(): false if an exception is raised. */
    method MarkStarted(ghost s: State) returns (first: bool)
      requires View() == s.flags
      modifies this
      ensures View() == Next(s, Ready).flags && first == !old(started)
      ensures started && stopping == old(stopping) && active == old(active)
    {
      if started {
        return false;
      }
      started := true;
      return true;
    }

    method StopEvents(ghost s: State)
      requires View() == s.flags
      modifies this
      ensures View() == Next(s, Stop).flags
      ensures stopping && started == old(started) && active == old(active)
    {
      stopping := true;
    }

    method IsActive() returns (r: bool)
      ensures r == View().active
    {
      r := active;
    }
  }

  /** One message of the iterator, and whether an observer raises an exception for it. */
  datatype Turn = Turn(msg: Message, raises: bool)

  /** The steps of the loop so far, the gaps between them, and the protocol state that they lead to. */
  datatype Trace = Trace(own: seq<Step>, gone: seq<seq<Step>>, t: State)

  ghost predicate Tracks(p: Provider, s: State, events: seq<Event>)
    reads p
  {
    p.View() == s.flags && s.events == events
  }

  /** What other threads can do while the loop runs: request a stop, or try to start the provider again. */
  predicate Foreign(step: Step) {
    step.Stop? || step.Ready?
  }

  predicate AllForeign(gaps: seq<seq<Step>>) {
    forall i, j :: 0 <= i < |gaps| && 0 <= j < |gaps[i]| ==> Foreign(gaps[i][j])
  }

  predicate OwnSteps(steps: seq<Step>) {
    forall i :: 0 <= i < |steps| ==> !Foreign(steps[i])
  }

  /** A run from s in which the loop has taken its own steps so far; the next gap is due exactly after one of them. */
  ghost predicate Going(s: State, gaps: seq<seq<Step>>, left: seq<seq<Step>>, tr: Trace, due: bool) {
    Leads(s, Woven(tr.own, tr.gone), tr.t) && OwnSteps(tr.own) && AllForeign(left) &&
    s.flags.started && tr.t.flags.started && Cut(gaps, tr.gone, left, |tr.own|, due)
  }

  ghost function On(tr: Trace, step: Step): Trace
    requires Enabled(tr.t, step)
  {
    tr.(own := tr.own + [step], t := Next(tr.t, step))
  }

  lemma StaysStarted(t: State, step: Step)
    requires Enabled(t, step) && t.flags.started
    ensures Next(t, step).flags.started
  {
  }

  lemma GoesOn(s: State, gaps: seq<seq<Step>>, left: seq<seq<Step>>, tr: Trace, step: Step)
    requires Going(s, gaps, left, tr, false) && Enabled(tr.t, step) && !Foreign(step)
    ensures Going(s, gaps, left, On(tr, step), true)
  {
    hide Leads, Woven, Enabled;
    LeadsOn(s, Woven(tr.own, tr.gone), tr.t, step);
    WovenStep(tr.own, tr.gone, step);
    StaysStarted(tr.t, step);
  }

  /** The state after some steps of other threads: only their stop requests are seen. */
  ghost predicate Disturbed(t: State, u: State) {
    u.phase == t.phase && u.events == t.events && u.iterated == t.iterated && u.loops == t.loops &&
    u.starting == t.starting && u.flags == t.flags.(stopping := u.flags.stopping) &&
    (t.flags.stopping ==> u.flags.stopping)
  }

  /** The loop does not hold the mutex: the other threads go on. */
  method LetOthersRun(p: Provider, left: seq<seq<Step>>, ghost s: State, ghost gaps: seq<seq<Step>>, ghost tr: Trace)
    returns (rest: seq<seq<Step>>, ghost more: Trace)
    requires p.View() == tr.t.flags && Going(s, gaps, left, tr, true)
    modifies p
    ensures p.View() == more.t.flags && Going(s, gaps, rest, more, false) && Disturbed(tr.t, more.t)
    ensures more.own == tr.own
  {
    hide Leads, Woven;
    if left == [] {
      return left, tr;
    }
    var gap := left[0];
    assert forall j :: 0 <= j < |gap| ==> Foreign(left[0][j]);
    ghost var u := tr.t;
    assert gap[..0] == [] && Woven(tr.own, tr.gone) + [] == Woven(tr.own, tr.gone);
    for i := 0 to |gap|
      invariant p.View() == u.flags && Disturbed(tr.t, u) && Leads(s, Woven(tr.own, tr.gone) + gap[..i], u)
    {
      if gap[i].Stop? {
        p.StopEvents(u);
      } else {
        var first := p.MarkStarted(u);
      }
      assert gap[..i + 1] == gap[..i] + [gap[i]];
      assert Woven(tr.own, tr.gone) + gap[..i + 1] == Woven(tr.own, tr.gone) + gap[..i] + [gap[i]];
      LeadsOn(s, Woven(tr.own, tr.gone) + gap[..i], u, gap[i]);
      u := Next(u, gap[i]);
    }
    assert gap[..|gap|] == gap;
    WovenGap(tr.own, tr.gone, gap);
    rest, more := left[1..], Trace(tr.own, tr.gone + [gap], u);
    assert gaps == (tr.gone + [gap]) + left[1..];
  }

  lemma StartGoing(s: State, gaps: seq<seq<Step>>)
    requires Reachable(s) && s.phase.AtIterator? && AllForeign(gaps)
    ensures Going(s, gaps, gaps, Trace([], [], s), false)
  {
    hide Reachable, EventsRight, MarksRight;
    ReachableInvariant(s);
    assert [] + gaps == gaps;
  }

  lemma SoFar(s: State, gaps: seq<seq<Step>>, left: seq<seq<Step>>, tr: Trace)
    requires Going(s, gaps, left, tr, false)
    ensures Leads(s, Woven(tr.own, tr.gone), tr.t) && OwnSteps(tr.own) && Cut(gaps, tr.gone, left, |tr.own|, false)
  {
  }

  // What the loop does with its messages and exceptions

  function Msgs(turns: seq<Turn>): (msgs: seq<Message>)
    ensures |msgs| == |turns|
  {
    seq(|turns|, i requires 0 <= i < |turns| => turns[i].msg)
  }

  /** The steps for messages that are shown to the observers. */
  function TurnSteps(turns: seq<Turn>): seq<Step> {
    if turns == [] then []
    else
      var last := turns[|turns| - 1];
      TurnSteps(turns[..|turns| - 1]) + [Yield(last.msg), Look, Notify(last.raises)]
  }

  predicate NoneRaises(turns: seq<Turn>) {
    forall i :: 0 <= i < |turns| ==> !turns[i].raises
  }

  /** What the loop does after a message: it goes on, it ends, or it handles an exception of an observer. */
  datatype After = NextMessage | Leave | Handle

  predicate PhaseAfter(after: After, phase: Phase) {
    match after
    case NextMessage => phase.AtIterator?
    case Leave => phase.Closing?
    case Handle => phase.Catching?
  }

  function Before(turns: seq<Turn>): seq<Turn>
    requires turns != []
  {
    turns[..|turns| - 1]
  }

  /** The steps for some messages, and what the observers saw of them: if the loop ended for a stop, that was seen before
      the last of them was shown. */
  function StepsFor(turns: seq<Turn>, after: After): seq<Step> {
    if after.Leave? && turns != [] then TurnSteps(Before(turns)) + [Yield(turns[|turns| - 1].msg), Look]
    else TurnSteps(turns)
  }

  function Shown(turns: seq<Turn>, after: After): seq<Event> {
    Sent(Msgs(if after.Leave? && turns != [] then Before(turns) else turns))
  }

  /** Why the loop did that after these messages: no observer raised an exception but possibly for the last of them. */
  predicate Because(turns: seq<Turn>, after: After, stopping: bool) {
    match after
    case NextMessage => NoneRaises(turns)
    case Leave => turns != [] && stopping && NoneRaises(Before(turns))
    case Handle => turns != [] && turns[|turns| - 1].raises && NoneRaises(Before(turns))
  }

  /** One more message. */
  lemma OneMoreTurn(turns: seq<Turn>, i: nat, after: After, stopping: bool)
    requires i < |turns| && NoneRaises(turns[..i])
    requires if after == Leave then stopping else turns[i].raises == after.Handle?
    ensures Because(turns[..i + 1], after, stopping)
    ensures StepsFor(turns[..i + 1], after) == TurnSteps(turns[..i]) + [Yield(turns[i].msg), Look]
                                               + if after == Leave then [] else [Notify(turns[i].raises)]
    ensures Shown(turns[..i + 1], after) ==
            Sent(Msgs(turns[..i])) + if after == Leave then [] else [MessageEvent(turns[i].msg)]
    ensures Msgs(turns[..i + 1]) == Msgs(turns[..i]) + [turns[i].msg]
  {
    var more := turns[..i + 1];
    assert Before(more) == turns[..i] && more[i] == turns[i];
    assert Msgs(more) == Msgs(turns[..i]) + [turns[i].msg];
    assert Sent(Msgs(turns[..i]) + [turns[i].msg]) == Sent(Msgs(turns[..i])) + [MessageEvent(turns[i].msg)];
  }

  lemma NoTurns(turns: seq<Turn>, iterated: seq<Message>, stopping: bool)
    ensures TurnSteps(turns[..0]) == [] && Shown(turns[..0], NextMessage) == [] && iterated + Msgs(turns[..0]) == iterated
    ensures Because(turns[..0], NextMessage, stopping)
  {
    assert turns[..0] == [];
  }

  /** The steps of the end of the loop. */
  function EndSteps(leaves: bool, completionRaises: bool): seq<Step> {
    (if leaves then [Deactivate, NotifyComplete(completionRaises)] else [])
    + (if !leaves || completionRaises then [Deactivate, NotifyError] else [])
  }

  function EndEvents(leaves: bool, completionRaises: bool): seq<Event> {
    (if leaves then [CompleteEvent] else []) + (if !leaves || completionRaises then [ErrorEvent] else [])
  }

  /** One message of the iterator: the loop looks at the flag, and then tells the observers. */
  method HandleMessage(p: Provider, turn: Turn, left: seq<seq<Step>>, seen: seq<Event>, ghost s: State,
                       ghost gaps: seq<seq<Step>>, ghost tr: Trace)
    returns (after: After, rest: seq<seq<Step>>, events: seq<Event>, ghost more: Trace)
    requires Tracks(p, tr.t, seen) && Going(s, gaps, left, tr, false) && tr.t.phase.AtIterator?
    modifies p
    ensures Tracks(p, more.t, events) && Going(s, gaps, rest, more, false) && PhaseAfter(after, more.t.phase)
    ensures more.t.loops == tr.t.loops && more.t.iterated == tr.t.iterated + [turn.msg]
    ensures if after == Leave then more.t.flags.stopping else turn.raises == after.Handle?
    ensures more.own == tr.own + [Yield(turn.msg), Look] + if after == Leave then [] else [Notify(turn.raises)]
    ensures events == seen + if after == Leave then [] else [MessageEvent(turn.msg)]
  {
    hide Going;
    events := seen;
    GoesOn(s, gaps, left, tr, Yield(turn.msg));
    more := On(tr, Yield(turn.msg));
    rest, more := LetOthersRun(p, left, s, gaps, more);
    var stop := p.stopping;
    GoesOn(s, gaps, rest, more, Look);
    more := On(more, Look);
    rest, more := LetOthersRun(p, rest, s, gaps, more);
    assert more.own == tr.own + [Yield(turn.msg), Look];
    if stop {
      return Leave, rest, events, more;
    }
    events := events + [MessageEvent(turn.msg)];
    GoesOn(s, gaps, rest, more, Notify(turn.raises));
    more := On(more, Notify(turn.raises));
    rest, more := LetOthersRun(p, rest, s, gaps, more);
    after := if turn.raises then Handle else NextMessage;
  }

  /** The provider becomes inactive, and then the observers are told of the end. */
  method Finish(p: Provider, last: Step, left: seq<seq<Step>>, seen: seq<Event>, ghost s: State,
                ghost gaps: seq<seq<Step>>, ghost tr: Trace)
    returns (rest: seq<seq<Step>>, events: seq<Event>, ghost more: Trace)
    requires last.NotifyComplete? || last == NotifyError
    requires Tracks(p, tr.t, seen) && Going(s, gaps, left, tr, false)
    requires if last.NotifyComplete? then tr.t.phase.Closing? else tr.t.phase.Catching?
    modifies p
    ensures Tracks(p, more.t, events) && Going(s, gaps, rest, more, false)
    ensures more.t.loops == tr.t.loops && more.t.iterated == tr.t.iterated
    ensures tr.t.flags.stopping ==> more.t.flags.stopping
    ensures if last == NotifyComplete(true) then more.t.phase.Catching? else more.t.phase.Finished?
    ensures more.own == tr.own + [Deactivate, last]
    ensures events == seen + [if last.NotifyComplete? then CompleteEvent else ErrorEvent]
  {
    hide Going;
    p.active := false;
    GoesOn(s, gaps, left, tr, Deactivate);
    more := On(tr, Deactivate);
    rest, more := LetOthersRun(p, left, s, gaps, more);
    events := seen + [if last.NotifyComplete? then CompleteEvent else ErrorEvent];
    GoesOn(s, gaps, rest, more, last);
    more := On(more, last);
    rest, more := LetOthersRun(p, rest, s, gaps, more);
  }

  /** The end of the loop, after an exception or without one; an observer may raise one for the completion. */
  method EndLoop(p: Provider, leaves: bool, completionRaises: bool, left: seq<seq<Step>>, seen: seq<Event>,
                 ghost s: State, ghost gaps: seq<seq<Step>>, ghost tr: Trace)
    returns (rest: seq<seq<Step>>, events: seq<Event>, ghost more: Trace)
    requires Tracks(p, tr.t, seen) && Going(s, gaps, left, tr, false)
    requires if leaves then tr.t.phase.Closing? else tr.t.phase.Catching?
    modifies p
    ensures Tracks(p, more.t, events) && Going(s, gaps, rest, more, false) && more.t.phase.Finished?
    ensures more.t.loops == tr.t.loops && more.t.iterated == tr.t.iterated
    ensures tr.t.flags.stopping ==> more.t.flags.stopping
    ensures more.own == tr.own + EndSteps(leaves, completionRaises)
    ensures events == seen + EndEvents(leaves, completionRaises)
  {
    hide Going;
    rest, events, more := left, seen, tr;
    if leaves {
      rest, events, more := Finish(p, NotifyComplete(completionRaises), rest, events, s, gaps, more);
    }
    if !leaves || completionRaises {
      rest, events, more := Finish(p, NotifyError, rest, events, s, gaps, more);
    }
  }

  /** The loop ends without an exception. */
  predicate Leaves(after: After, iteratorRaises: bool) {
    after.Leave? || (after.NextMessage? && !iteratorRaises)
  }

  function LastSteps(after: After, iteratorRaises: bool, completionRaises: bool): seq<Step> {
    (if after.NextMessage? then [if iteratorRaises then IteratorRaises else IteratorEnds] else [])
    + EndSteps(Leaves(after, iteratorRaises), completionRaises)
  }

  lemma StillGoing(turns: seq<Turn>, stopping: bool)
    ensures Because(turns, NextMessage, stopping) <==> NoneRaises(turns)
    ensures StepsFor(turns, NextMessage) == TurnSteps(turns) && Shown(turns, NextMessage) == Sent(Msgs(turns))
  {
  }

  lemma StartPhase(phase: Phase)
    ensures PhaseAfter(NextMessage, phase) <==> phase.AtIterator?
  {
  }

  /** The loop over the messages. */
  method IterateMessages(p: Provider, turns: seq<Turn>, left: seq<seq<Step>>, ghost s: State,
                         ghost gaps: seq<seq<Step>>, ghost tr: Trace)
    returns (after: After, rest: seq<seq<Step>>, events: seq<Event>, ghost more: Trace, ghost k: nat)
    requires Tracks(p, tr.t, []) && Going(s, gaps, left, tr, false) && tr.t.phase.AtIterator? && tr.own == []
    modifies p
    ensures Tracks(p, more.t, events) && Going(s, gaps, rest, more, false) && PhaseAfter(after, more.t.phase)
    ensures k <= |turns| && (after == NextMessage ==> k == |turns|)
    ensures more.t.loops == tr.t.loops && more.t.iterated == tr.t.iterated + Msgs(turns[..k])
    ensures Because(turns[..k], after, more.t.flags.stopping)
    ensures more.own == StepsFor(turns[..k], after) && events == Shown(turns[..k], after)
  {
    hide Going, StepsFor, Shown, Because, PhaseAfter, TurnSteps, Msgs, Sent, NoneRaises;
    events, rest, more, after, k := [], left, tr, NextMessage, 0;
    NoTurns(turns, tr.t.iterated, tr.t.flags.stopping);
    StillGoing(turns[..0], tr.t.flags.stopping);
    StartPhase(tr.t.phase);
    var i := 0;
    while i < |turns| && after == NextMessage
      invariant 0 <= i <= |turns| && k == i && more.t.loops == tr.t.loops
      invariant Tracks(p, more.t, events) && Going(s, gaps, rest, more, false) && PhaseAfter(after, more.t.phase)
      invariant more.t.iterated == tr.t.iterated + Msgs(turns[..i])
      invariant Because(turns[..i], after, more.t.flags.stopping)
      invariant more.own == StepsFor(turns[..i], after) && events == Shown(turns[..i], after)
      decreases |turns| - i
    {
      StillGoing(turns[..i], more.t.flags.stopping);
      StartPhase(more.t.phase);
      after, rest, events, more := HandleMessage(p, turns[i], rest, events, s, gaps, more);
      OneMoreTurn(turns, i, after, more.t.flags.stopping);
      i, k := i + 1, k + 1;
    }
  }

  lemma BecauseStill(turns: seq<Turn>, after: After, stopping: bool, later: bool)
    requires Because(turns, after, stopping) && (stopping ==> later)
    ensures Because(turns, after, later)
  {
  }

  /** The loop of the background thread, with the steps of other threads in the gaps between its own, is a run of the
      protocol that takes the messages and exceptions that it is given, in order, and leaves the flags and the events of
      a finished protocol state.  The iterator may raise an exception after the last message, and an observer one for
      the completion.  After the first k messages the iterator ended, or a stop was seen, or an observer raised an
      exception. */
  method SubscribeLoop(p: Provider, turns: seq<Turn>, iteratorRaises: bool, completionRaises: bool,
                       gaps: seq<seq<Step>>, ghost s: State)
    returns (events: seq<Event>, rest: seq<seq<Step>>, ghost more: Trace, ghost k: nat, ghost after: After)
    requires Tracks(p, s, []) && Reachable(s) && s.phase.AtIterator? && AllForeign(gaps)
    modifies p
    ensures Leads(s, Woven(more.own, more.gone), more.t) && OwnSteps(more.own)
    ensures Cut(gaps, more.gone, rest, |more.own|, false)
    ensures Tracks(p, more.t, events) && more.t.phase.Finished? && more.t.loops == s.loops
    ensures k <= |turns| && (after == NextMessage ==> k == |turns|) && more.t.iterated == s.iterated + Msgs(turns[..k])
    ensures Because(turns[..k], after, more.t.flags.stopping)
    ensures more.own == StepsFor(turns[..k], after) + LastSteps(after, iteratorRaises, completionRaises)
    ensures events == Shown(turns[..k], after) + EndEvents(Leaves(after, iteratorRaises), completionRaises)
  {
    hide Going, Reachable, StepsFor, Shown, Because, EndSteps, EndEvents, Msgs;
    StartGoing(s, gaps);
    var a;
    a, rest, events, more, k := IterateMessages(p, turns, gaps, s, gaps, Trace([], [], s));
    after := a;
    ghost var before := more;
    if a == NextMessage {
      ghost var end := if iteratorRaises then IteratorRaises else IteratorEnds;
      GoesOn(s, gaps, rest, more, end);
      more := On(more, end);
      rest, more := LetOthersRun(p, rest, s, gaps, more);
      a := if iteratorRaises then Handle else Leave;
    }
    BecauseStill(turns[..k], after, before.t.flags.stopping, more.t.flags.stopping);
    ghost var between := more;
    rest, events, more := EndLoop(p, a == Leave, completionRaises, rest, events, s, gaps, more);
    BecauseStill(turns[..k], after, between.t.flags.stopping, more.t.flags.stopping);
    SoFar(s, gaps, rest, more);
  }
}
