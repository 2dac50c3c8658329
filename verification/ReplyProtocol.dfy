/** The request/reply protocol: any number of requesting threads, one delivery thread, and the shared replies.

    Every step is one region locked by the mutex of the replies, or a step that touches no shared state.  The steps of
    the C client (deliveries, their completion), of the clock and of the interrupting code come in any order, limited
    only by Enabled.
*/
module ReplyProtocol {
  import opened Wrappers
  import opened Tokens
  import opened ReplyClock
  import opened ReplyReferences
  import opened ReplySlots

  /** A message that the C client handed to the reply callback; its number is its place in the history. */
  datatype Delivery = Delivery(subject: Option<string>, noResponders: bool)

  datatype Outcome =
    | Replied(msg: Message)
    | NobodyResponds(msg: Message)
    | TimedOut
    | Interrupted
    | PublishFailed

  /** A wait on the condition variable, from its check to its end. */
  datatype Wait = Wait(from: int, until: int)

  /** Where a request is.  The numbers since and until are lengths of the history: when its slot was created, and when
      it stopped waiting. */
  datatype Phase =
    | Numbered
    | Inserted(since: nat)
    | Waiting(since: nat, deadline: int, wait: Option<Wait>)
    | Holding(since: nat, until: nat, msg: Message)
    | Leaving(since: nat, until: nat, outcome: Outcome)
    | Finished(since: nat, until: nat, outcome: Outcome)

  /** Times are in nanoseconds.  The connection object is alive until its destructor; the subscription is completed when
      the C client has reported that its callback is not called again. */
  datatype State = State(
    prefix: string,
    counter: nat,
    requests: map<nat, Phase>,
    slots: Slots,
    history: seq<Delivery>,
    now: int,
    alive: bool,
    completed: bool,
    refs: References)

  datatype Step =
    | Begin
    | CreateSlot(n: nat)
    | FailToPublish(n: nat)
    | StartWaiting(n: nat, timeoutMs: int)
    | Check(n: nat)
    | Interrupt(n: nat)
    | Consume(n: nat)
    | Return(n: nat)
    | Receive(d: Delivery)
    | Tick(time: int)
    | DropConnection
    | CompleteSubscription

  /** The replies were created; they are held by the connection and by the callback. */
  function Initial(prefix: string): State {
    State(prefix, 0, map[], Slots(map[], multiset{}), [], 0, true, false, References(2, 0, true, true))
  }

  /** A request begins while the connection object is alive.  The C client calls the callback until its completion,
      whatever references the code holds.  The clock does not run backwards. */
  predicate Enabled(s: State, step: Step) {
    match step
    case Begin => s.alive
    case CreateSlot(n) => n in s.requests && s.requests[n].Numbered?
    case FailToPublish(n) => n in s.requests && s.requests[n].Inserted?
    case StartWaiting(n, timeoutMs) => n in s.requests && s.requests[n].Inserted? && timeoutMs < INT64_LIMIT
    case Check(n) => n in s.requests && s.requests[n].Waiting?
    case Interrupt(n) => n in s.requests && s.requests[n].Waiting?
    case Consume(n) => n in s.requests && s.requests[n].Holding?
    case Return(n) => n in s.requests && s.requests[n].Leaving?
    case Receive(_) => !s.completed
    case Tick(time) => s.now <= time < INT64_LIMIT
    case DropConnection => s.alive
    case CompleteSubscription => !s.completed
  }

  function Set(s: State, n: nat, p: Phase): State {
    s.(requests := s.requests[n := p])
  }

  predicate Active(s: State, n: nat) {
    n in s.requests && !s.requests[n].Finished?
  }

  /** When a dropped reference was the last one, the destructor of the replies destroys the messages left in the
      slots. */
  function Release(s: State, refs: References): State {
    if refs.frees == s.refs.frees then s.(refs := refs)
    else
      var left := multiset(Stored(s.slots.replies, s.slots.replies.Keys));
      s.(refs := refs, slots := Slots(map[], s.slots.destroyed + left))
  }

  function CheckPhase(s: State, p: Phase, reply: Option<Message>): Phase
    requires p.Waiting?
  {
    match reply
    case Some(m) => Holding(p.since, |s.history|, m)
    case None =>
      var remaining := Remaining(p.deadline, s.now);
      if remaining <= 0 then Leaving(p.since, |s.history|, TimedOut)
      else p.(wait := Some(Wait(s.now, s.now + NS_PER_MS * WaitMs(remaining))))
  }

  /** The end of a request, before its reference is given back. */
  function Ended(s: State, n: nat): State
    requires n in s.requests && s.requests[n].Leaving?
  {
    var p := s.requests[n];
    Set(s.(slots := Erase(s.slots, Decimal(n))), n, Finished(p.since, p.until, p.outcome))
  }

  function Delivered(s: State, d: Delivery): State {
    s.(slots := Deliver(s.slots, s.prefix, d.subject, |s.history|), history := s.history + [d])
  }

  function Next(s: State, step: Step): State
    requires Enabled(s, step)
  {
    match step
    case Begin => Set(s.(counter := s.counter + 1, refs := Copy(s.refs)), s.counter + 1, Numbered)
    case CreateSlot(n) => Set(s.(slots := Put(s.slots, Decimal(n), None)), n, Inserted(|s.history|))
    case FailToPublish(n) => Set(s, n, Leaving(s.requests[n].since, |s.history|, PublishFailed))
    case StartWaiting(n, timeoutMs) =>
      Set(s, n, Waiting(s.requests[n].since, Deadline(s.now, timeoutMs), None))
    case Check(n) =>
      Set(s.(slots := Take(s.slots, Decimal(n))), n, CheckPhase(s, s.requests[n], Content(s.slots, Decimal(n))))
    case Interrupt(n) => Set(s, n, Leaving(s.requests[n].since, |s.history|, Interrupted))
    case Consume(n) =>
      var p := s.requests[n];
      var outcome := if p.msg < |s.history| && s.history[p.msg].noResponders then NobodyResponds(p.msg)
                     else Replied(p.msg);
      Set(s.(slots := Destroy(s.slots, Some(p.msg))), n, Leaving(p.since, p.until, outcome))
    case Return(n) => Release(Ended(s, n), Drop(s.refs))
    case Receive(d) => Delivered(s, d)
    case Tick(time) => s.(now := time)
    case DropConnection => Release(s.(alive := false), DropByConnection(s.refs))
    case CompleteSubscription => Release(s.(completed := true), DropByCallback(s.refs))
  }

  // ---------- The first delivery for a subject ----------

  /** The first message of history[from..end] with a subject. */
  function First(history: seq<Delivery>, subject: string, from: nat, end: nat): (r: Option<Message>)
    requires from <= end <= |history|
    ensures r.Some? ==> from <= r.value < end && history[r.value].subject == Some(subject)
    decreases end
  {
    if from == end then None
    else
      var earlier := First(history, subject, from, end - 1);
      if earlier.Some? then earlier
      else if history[end - 1].subject == Some(subject) then Some(end - 1)
      else None
  }

  lemma {:induction false} FirstMeaning(history: seq<Delivery>, subject: string, from: nat, end: nat, m: nat)
    requires from <= m < end <= |history| && history[m].subject == Some(subject)
    ensures First(history, subject, from, end).Some? && First(history, subject, from, end).value <= m
    decreases end
  {
    if m == end - 1 {
    } else {
      FirstMeaning(history, subject, from, end - 1, m);
    }
  }

  lemma {:induction false} FirstOfLonger(history: seq<Delivery>, d: Delivery, subject: string, from: nat, end: nat)
    requires from <= end <= |history|
    ensures First(history + [d], subject, from, end) == First(history, subject, from, end)
    decreases end
  {
    if from == end {
    } else {
      FirstOfLonger(history, d, subject, from, end - 1);
    }
  }

  // ---------- The invariant ----------

  predicate HasSlot(p: Phase) {
    !p.Numbered? && !p.Finished?
  }

  function Subject(s: State, n: nat): string {
    s.prefix + Decimal(n)
  }

  /** The slots are exactly those of the requests between the creation of the slot and its removal. */
  ghost predicate SlotsBelong(s: State) {
    (forall n :: n in s.requests && HasSlot(s.requests[n]) ==> Decimal(n) in s.slots.replies) &&
    (forall t :: t in s.slots.replies ==>
                   var n := Value(t); t == Decimal(n) && n in s.requests && HasSlot(s.requests[n]))
  }

  /** The point of the history from which a message can be in the slot: a taken reply leaves an empty slot. */
  function SlotFrom(p: Phase): nat
    requires HasSlot(p)
  {
    if p.Holding? || (p.Leaving? && (p.outcome.Replied? || p.outcome.NobodyResponds?)) then p.until else p.since
  }

  /** A finished wait had the right end. */
  predicate OutcomeRight(s: State, n: nat, since: nat, until: nat, outcome: Outcome) {
    since <= until <= |s.history| &&
    match outcome
    case Replied(m) => First(s.history, Subject(s, n), since, until) == Some(m) && !s.history[m].noResponders
    case NobodyResponds(m) => First(s.history, Subject(s, n), since, until) == Some(m) && s.history[m].noResponders
    case TimedOut => First(s.history, Subject(s, n), since, until) == None
    case Interrupted => true
    case PublishFailed => true
  }

  /** A wait is for the time that remained at its check. */
  predicate WaitRight(deadline: int, w: Wait) {
    0 <= w.from < INT64_LIMIT && Remaining(deadline, w.from) > 0 &&
    w.until == w.from + NS_PER_MS * WaitMs(Remaining(deadline, w.from))
  }

  predicate PhaseRight(s: State, n: nat, p: Phase) {
    match p
    case Numbered => true
    case Inserted(since) => since <= |s.history|
    case Waiting(since, deadline, wait) => since <= |s.history| && (wait.Some? ==> WaitRight(deadline, wait.value))
    case Holding(since, until, m) =>
      since <= until <= |s.history| && First(s.history, Subject(s, n), since, until) == Some(m)
    case Leaving(since, until, outcome) => OutcomeRight(s, n, since, until, outcome)
    case Finished(since, until, outcome) => OutcomeRight(s, n, since, until, outcome)
  }

  /** The slot of a request holds the first reply to it that came since the slot was last empty. */
  predicate SlotRight(s: State, n: nat, p: Phase) {
    HasSlot(p) ==>
      SlotFrom(p) <= |s.history| &&
      Content(s.slots, Decimal(n)) == First(s.history, Subject(s, n), SlotFrom(p), |s.history|)
  }

  predicate RequestRight(s: State, n: nat)
    requires n in s.requests
  {
    n <= s.counter && PhaseRight(s, n, s.requests[n]) && SlotRight(s, n, s.requests[n])
  }

  function TokenOf(s: State, m: Message): Option<string>
    requires m < |s.history|
  {
    Addressed(s.prefix, s.history[m].subject)
  }

  predicate InSlot(s: State, m: Message) {
    m < |s.history| && TokenOf(s, m).Some? && Content(s.slots, TokenOf(s, m).value) == Some(m)
  }

  predicate Held(s: State, m: Message) {
    m < |s.history| && TokenOf(s, m).Some? &&
    var n := Value(TokenOf(s, m).value);
    n in s.requests && s.requests[n].Holding? && s.requests[n].msg == m
  }

  /** Each received message is in its slot, or held by its request, or was destroyed once. */
  predicate MessageRight(s: State, m: Message) {
    s.slots.destroyed[m] + Bit(InSlot(s, m)) + Bit(Held(s, m)) == if m < |s.history| then 1 else 0
  }

  function ActiveRequests(s: State): set<nat> {
    set n | n in s.requests && Active(s, n)
  }

  predicate CountRight(s: State) {
    Counted(s.refs, |ActiveRequests(s)|) && (s.refs.connection <==> s.alive) && (s.refs.callback <==> !s.completed)
  }

  ghost predicate Consistent(s: State) {
    SlotsBelong(s) && (forall n :: n in s.requests ==> RequestRight(s, n)) && (forall m: nat :: MessageRight(s, m)) &&
    0 <= s.now < INT64_LIMIT
  }

  ghost predicate Invariant(s: State) {
    Consistent(s) && CountRight(s)
  }

  // ---------- Every step keeps the invariant ----------

  lemma SlotOfToken(s: State, n: nat)
    requires SlotsBelong(s)
    ensures Decimal(n) in s.slots.replies <==> n in s.requests && HasSlot(s.requests[n])
  {
    if Decimal(n) in s.slots.replies {
      ValueOfDecimal(n);
    }
  }

  /** A request whose phase and slot a step leaves alone. */
  lemma Undisturbed(s: State, s': State, k: nat)
    requires k in s.requests && k in s'.requests && s'.requests[k] == s.requests[k] && RequestRight(s, k)
    requires s'.prefix == s.prefix && s'.history == s.history && s'.counter >= s.counter
    requires Content(s'.slots, Decimal(k)) == Content(s.slots, Decimal(k))
    ensures RequestRight(s', k)
  {
    hide First, Decimal, Content;
  }

  lemma OtherToken(m: nat, n: nat)
    requires m != n
    ensures Decimal(m) != Decimal(n)
  {
    if Decimal(m) == Decimal(n) {
      TokensDiffer(m, n);
    }
  }

  /** A step that changes the slot and the phase of one request leaves all other requests alone. */
  lemma OthersUndisturbed(s: State, s': State, n: nat)
    requires Consistent(s)
    requires s'.prefix == s.prefix && s'.history == s.history && s'.counter >= s.counter
    requires n in s'.requests && s'.requests == s.requests[n := s'.requests[n]]
    requires forall t :: t != Decimal(n) ==> Content(s'.slots, t) == Content(s.slots, t)
    ensures forall k :: k in s'.requests && k != n ==> RequestRight(s', k)
  {
    hide First, Decimal, Content, RequestRight, MessageRight, SlotsBelong;
    forall k | k in s'.requests && k != n ensures RequestRight(s', k) {
      OtherToken(n, k);
      Undisturbed(s, s', k);
    }
  }

  lemma RequestChanged(s: State, n: nat, p: Phase)
    requires n in s.requests && RequestRight(s, n) && PhaseRight(s, n, p)
    requires HasSlot(p) && HasSlot(s.requests[n]) && SlotFrom(p) == SlotFrom(s.requests[n])
    ensures RequestRight(Set(s, n, p), n)
  {
    hide First, Decimal, Content;
  }

  lemma SameTokens(s: State, s': State)
    requires s'.prefix == s.prefix && s'.history == s.history
    ensures forall j: nat :: j < |s.history| ==> TokenOf(s', j) == TokenOf(s, j)
  {
  }

  lemma MessageElsewhere(s: State, n: nat, p: Phase, m: Message)
    requires Consistent(s) && n in s.requests && !p.Holding? && !s.requests[n].Holding?
    ensures MessageRight(Set(s, n, p), m)
  {
    hide First, Decimal, Value, TokenOf, Content, RequestRight, SlotsBelong;
    SameTokens(s, Set(s, n, p));
    assert MessageRight(s, m);
  }

  /** A step of one request that neither takes nor destroys a message. */
  lemma PhaseChanged(s: State, n: nat, p: Phase)
    requires Consistent(s) && n in s.requests
    requires HasSlot(p) && HasSlot(s.requests[n]) && SlotFrom(p) == SlotFrom(s.requests[n])
    requires !p.Holding? && !s.requests[n].Holding? && PhaseRight(s, n, p)
    ensures Consistent(Set(s, n, p))
  {
    hide First, Decimal, Value, TokenOf, Content, MessageRight, RequestRight;
    var s' := Set(s, n, p);
    OthersUndisturbed(s, s', n);
    RequestChanged(s, n, p);
    forall m: nat ensures MessageRight(s', m) {
      MessageElsewhere(s, n, p, m);
    }
  }

  lemma NumbersSoFar(s: State)
    requires Consistent(s)
    ensures forall n :: n in s.requests ==> n <= s.counter
  {
    hide PhaseRight, SlotRight, MessageRight;
    forall n | n in s.requests ensures n <= s.counter {
      assert RequestRight(s, n);
    }
  }

  lemma Numbering(s: State)
    requires Consistent(s) && s.alive
    ensures Consistent(Next(s, Begin))
  {
    hide First, Decimal, Value, TokenOf, Content;
    var n := s.counter + 1;
    var s' := Next(s, Begin);
    SameTokens(s, s');
    NumbersSoFar(s);
    OthersUndisturbed(s, s', n);
    forall m: nat ensures MessageRight(s', m) {
      assert MessageRight(s, m);
    }
  }

  lemma CreatedSlot(s: State, n: nat)
    requires n in s.requests && s.requests[n].Numbered? && RequestRight(s, n)
    ensures RequestRight(Next(s, CreateSlot(n)), n)
  {
    hide Decimal;
  }

  lemma CreatedMessages(s: State, n: nat, m: Message)
    requires Consistent(s) && n in s.requests && s.requests[n].Numbered?
    ensures MessageRight(Next(s, CreateSlot(n)), m)
  {
    hide Decimal, Value, TokenOf, First, RequestRight, SlotsBelong;
    SlotOfToken(s, n);
    assert MessageRight(s, m);
    SameTokens(s, Next(s, CreateSlot(n)));
  }

  lemma Creating(s: State, n: nat)
    requires Consistent(s) && n in s.requests && s.requests[n].Numbered?
    ensures Consistent(Next(s, CreateSlot(n)))
  {
    hide Decimal, Value, MessageRight, RequestRight, First;
    var s' := Next(s, CreateSlot(n));
    ValueOfDecimal(n);
    OthersUndisturbed(s, s', n);
    CreatedSlot(s, n);
    forall m: nat ensures MessageRight(s', m) {
      CreatedMessages(s, n, m);
    }
  }

  /** What is in a slot was received, is addressed to it, and is not anywhere else. */
  lemma StoredMessage(s: State, n: nat)
    requires Consistent(s) && Content(s.slots, Decimal(n)).Some?
    ensures n in s.requests && HasSlot(s.requests[n])
    ensures var m := Content(s.slots, Decimal(n)).value;
            m < |s.history| && TokenOf(s, m) == Some(Decimal(n)) && InSlot(s, m) && !Held(s, m) && s.slots.destroyed[m] == 0
  {
    hide Decimal, Value;
    SlotOfToken(s, n);
    assert RequestRight(s, n);
    var m := Content(s.slots, Decimal(n)).value;
    ReplySubject(s.prefix, n, s.history[m].subject.value);
    assert MessageRight(s, m);
  }

  /** What a request holds was received, is addressed to it, and is not anywhere else. */
  lemma HeldMessage(s: State, n: nat)
    requires Consistent(s) && n in s.requests && s.requests[n].Holding?
    ensures var m := s.requests[n].msg;
            m < |s.history| && TokenOf(s, m) == Some(Decimal(n)) && !InSlot(s, m) && Held(s, m) && s.slots.destroyed[m] == 0
  {
    hide Decimal, Value;
    assert RequestRight(s, n);
    var m := s.requests[n].msg;
    ReplySubject(s.prefix, n, s.history[m].subject.value);
    ValueOfDecimal(n);
    assert MessageRight(s, m);
  }

  lemma TakenRequest(s: State, n: nat)
    requires n in s.requests && s.requests[n].Waiting? && Content(s.slots, Decimal(n)).Some? && RequestRight(s, n)
    ensures RequestRight(Next(s, Check(n)), n)
  {
    hide Decimal;
  }

  lemma TakenSlots(s: State, n: nat)
    requires SlotsBelong(s) && n in s.requests && s.requests[n].Waiting?
    ensures SlotsBelong(Next(s, Check(n)))
    ensures Next(s, Check(n)).slots.replies.Keys == s.slots.replies.Keys
  {
    hide Decimal, Value;
  }

  lemma TakenMessages(s: State, n: nat, i: nat)
    requires Consistent(s) && n in s.requests && s.requests[n].Waiting? && Content(s.slots, Decimal(n)).Some?
    ensures MessageRight(Next(s, Check(n)), i)
  {
    hide Decimal, Value, TokenOf, First, RequestRight, SlotsBelong;
    StoredMessage(s, n);
    ValueOfDecimal(n);
    assert MessageRight(s, i);
    SameTokens(s, Next(s, Check(n)));
  }

  lemma Taking(s: State, n: nat)
    requires Consistent(s) && n in s.requests && s.requests[n].Waiting? && Content(s.slots, Decimal(n)).Some?
    ensures Consistent(Next(s, Check(n)))
  {
    hide Decimal, Value, RequestRight, MessageRight, First, SlotsBelong;
    var s' := Next(s, Check(n));
    TakenSlots(s, n);
    TakenRequest(s, n);
    OthersUndisturbed(s, s', n);
    forall i: nat ensures MessageRight(s', i) {
      TakenMessages(s, n, i);
    }
  }

  lemma SameContent(s: State, s': State)
    requires s'.slots.replies == s.slots.replies
    ensures forall t :: Content(s'.slots, t) == Content(s.slots, t)
  {
  }

  lemma ConsumedMessages(s: State, n: nat, i: nat)
    requires Consistent(s) && n in s.requests && s.requests[n].Holding?
    ensures MessageRight(Next(s, Consume(n)), i)
  {
    hide Decimal, Value, TokenOf, First, RequestRight, SlotsBelong, Content;
    HeldMessage(s, n);
    ValueOfDecimal(n);
    assert MessageRight(s, i);
    SameTokens(s, Next(s, Consume(n)));
    SameContent(s, Next(s, Consume(n)));
  }

  lemma ConsumedRequest(s: State, n: nat)
    requires n in s.requests && s.requests[n].Holding? && RequestRight(s, n)
    ensures RequestRight(Next(s, Consume(n)), n)
  {
    hide Decimal, First;
  }

  lemma Consuming(s: State, n: nat)
    requires Consistent(s) && n in s.requests && s.requests[n].Holding?
    ensures Consistent(Next(s, Consume(n)))
  {
    hide First, Decimal, Value, RequestRight, MessageRight;
    var s' := Next(s, Consume(n));
    ConsumedRequest(s, n);
    OthersUndisturbed(s, s', n);
    forall i: nat ensures MessageRight(s', i) {
      ConsumedMessages(s, n, i);
    }
  }

  lemma EndedMessages(s: State, n: nat, i: nat)
    requires Consistent(s) && n in s.requests && s.requests[n].Leaving?
    ensures MessageRight(Ended(s, n), i)
  {
    hide Decimal, Value, TokenOf, First, RequestRight, SlotsBelong;
    if Content(s.slots, Decimal(n)).Some? {
      StoredMessage(s, n);
    }
    assert MessageRight(s, i);
    SameTokens(s, Ended(s, n));
  }

  lemma EndedSlots(s: State, n: nat)
    requires SlotsBelong(s) && n in s.requests && s.requests[n].Leaving?
    ensures SlotsBelong(Ended(s, n))
  {
    hide Decimal, Value, Content;
    var s' := Ended(s, n);
    forall k | k in s'.requests && HasSlot(s'.requests[k]) ensures Decimal(k) in s'.slots.replies {
      OtherToken(n, k);
    }
  }

  lemma EndedRequest(s: State, n: nat)
    requires n in s.requests && s.requests[n].Leaving? && RequestRight(s, n)
    ensures RequestRight(Ended(s, n), n)
  {
    hide Decimal, First;
  }

  lemma Ending(s: State, n: nat)
    requires Consistent(s) && n in s.requests && s.requests[n].Leaving?
    ensures Consistent(Ended(s, n))
  {
    hide First, Decimal, Value, RequestRight, MessageRight, SlotsBelong;
    var s' := Ended(s, n);
    EndedSlots(s, n);
    EndedRequest(s, n);
    OthersUndisturbed(s, s', n);
    forall i: nat ensures MessageRight(s', i) {
      EndedMessages(s, n, i);
    }
  }

  // ---------- A delivery ----------

  /** A slot after a delivery: an empty slot takes the reply that is addressed to it. */
  lemma DeliveredSlot(s: Slots, prefix: string, subject: Option<string>, n: nat, m: Message)
    requires Decimal(n) in s.replies
    ensures Content(Deliver(s, prefix, subject, m), Decimal(n)) ==
            if Content(s, Decimal(n)).None? && subject == Some(prefix + Decimal(n)) then Some(m)
            else Content(s, Decimal(n))
  {
    hide Decimal, StripPrefix;
    if subject.Some? {
      ReplySubject(prefix, n, subject.value);
    }
  }

  lemma SlotAfterDelivery(s: State, d: Delivery, n: nat)
    requires Consistent(s) && n in s.requests
    ensures SlotRight(Delivered(s, d), n, s.requests[n])
  {
    hide Decimal, Value, Deliver, Content, MessageRight;
    var p := s.requests[n];
    assert RequestRight(s, n);
    if HasSlot(p) {
      SlotOfToken(s, n);
      DeliveredSlot(s.slots, s.prefix, d.subject, n, |s.history|);
      FirstOfLonger(s.history, d, Subject(s, n), SlotFrom(p), |s.history|);
    }
  }

  lemma ReceivedByRequest(s: State, d: Delivery, n: nat)
    requires Consistent(s) && n in s.requests
    ensures RequestRight(Delivered(s, d), n)
  {
    hide Decimal, Value, Deliver, SlotRight, First;
    var p := s.requests[n];
    assert RequestRight(s, n);
    SlotAfterDelivery(s, d, n);
    if !p.Numbered? && !p.Inserted? && !p.Waiting? {
      FirstOfLonger(s.history, d, Subject(s, n), p.since, p.until);
    }
  }

  /** A message that is only now delivered was in no slot and with no request. */
  lemma NotYetStored(s: State, token: string)
    requires Consistent(s) && Content(s.slots, token).Some?
    ensures Content(s.slots, token).value < |s.history|
  {
    hide First, RequestRight, MessageRight;
    StoredMessage(s, Value(token));
  }

  lemma NotYetHeld(s: State, d: Delivery)
    requires Consistent(s)
    ensures !Held(Delivered(s, d), |s.history|)
  {
    hide First, Decimal, RequestRight, MessageRight, SlotsBelong, Deliver, Addressed;
    forall n | n in s.requests && s.requests[n].Holding? ensures s.requests[n].msg < |s.history| {
      HeldMessage(s, n);
    }
  }

  lemma ReceivedMessages(s: State, d: Delivery, m: nat)
    requires Consistent(s)
    ensures MessageRight(Delivered(s, d), m)
  {
    hide First, Decimal, Value, StripPrefix, RequestRight, SlotsBelong;
    var s' := Delivered(s, d);
    assert MessageRight(s, m);
    var token := Addressed(s.prefix, d.subject);
    if token.Some? && Content(s.slots, token.value).Some? {
      NotYetStored(s, token.value);
    }
    if m == |s.history| {
      NotYetHeld(s, d);
    }
  }

  lemma Receiving(s: State, d: Delivery)
    requires Consistent(s)
    ensures Consistent(Delivered(s, d))
  {
    hide RequestRight, MessageRight, First, Decimal, Value, StripPrefix;
    forall n | n in s.requests ensures RequestRight(Delivered(s, d), n) {
      ReceivedByRequest(s, d, n);
    }
    forall m: nat ensures MessageRight(Delivered(s, d), m) {
      ReceivedMessages(s, d, m);
    }
  }

  // ---------- References ----------

  lemma NoSlots(s: State)
    requires SlotsBelong(s)
    ensures s.slots.replies != map[] ==> ActiveRequests(s) != {}
  {
    hide Decimal, Value;
    if s.slots.replies != map[] {
      assert s.slots.replies.Keys != {};
      var t :| t in s.slots.replies;
      assert Value(t) in ActiveRequests(s);
    }
  }

  lemma SamePhase(s: State, s': State, n: nat, p: Phase)
    requires PhaseRight(s, n, p) && s'.prefix == s.prefix && s'.history == s.history
    ensures PhaseRight(s', n, p)
  {
    hide First, Decimal;
  }

  /** The clock and the references are no part of the consistency. */
  lemma Elsewhere(s: State, s': State)
    requires Consistent(s)
    requires s' == s.(now := s'.now, alive := s'.alive, completed := s'.completed, refs := s'.refs)
    requires 0 <= s'.now < INT64_LIMIT
    ensures Consistent(s')
  {
    hide First, Decimal, Value, Content;
    SameTokens(s, s');
    forall n | n in s'.requests ensures RequestRight(s', n) {
      assert RequestRight(s, n);
      SamePhase(s, s', n, s.requests[n]);
    }
    forall m: nat ensures MessageRight(s', m) {
      assert MessageRight(s, m);
    }
  }

  /** The request stays active, or stays inactive. */
  lemma SameActive(s: State, s': State)
    requires forall n :: n in s.requests && Active(s, n) <==> n in s'.requests && Active(s', n)
    ensures ActiveRequests(s') == ActiveRequests(s)
  {
    assert forall n :: n in ActiveRequests(s) <==> n in ActiveRequests(s');
  }

  lemma NothingLeft(s: State, refs: References)
    requires s.slots.replies == map[]
    ensures Release(s, refs) == s.(refs := refs)
  {
    assert Stored(s.slots.replies, s.slots.replies.Keys) == {};
  }

  /** When the last reference goes, every slot is gone: the destructor finds no message to destroy. */
  lemma Releasing(s: State, refs: References)
    requires Consistent(s) && s.refs.frees == 0 && CountRight(s.(refs := refs))
    ensures Invariant(Release(s, refs)) && Release(s, refs) == s.(refs := refs)
  {
    hide First, Decimal, Value, RequestRight, MessageRight, SlotsBelong;
    Elsewhere(s, s.(refs := refs));
    if refs.frees != 0 {
      SameActive(s, s.(refs := refs));
      NoSlots(s);
      NothingLeft(s, refs);
    }
  }

  lemma ActiveBegun(s: State, s': State, n: nat)
    requires n !in s.requests && s'.requests == s.requests[n := Numbered]
    ensures |ActiveRequests(s')| == |ActiveRequests(s)| + 1
  {
    assert n !in ActiveRequests(s) && ActiveRequests(s') == ActiveRequests(s) + {n};
  }

  lemma OneMoreActive(s: State)
    requires CountRight(s) && s.alive && s.counter + 1 !in s.requests
    ensures CountRight(Next(s, Begin))
  {
    hide ActiveRequests;
    ActiveBegun(s, Next(s, Begin), s.counter + 1);
  }

  lemma OneLessActive(s: State, n: nat)
    requires CountRight(s) && n in s.requests && s.requests[n].Leaving?
    ensures s.refs.frees == 0 && CountRight(Ended(s, n).(refs := Drop(s.refs)))
  {
    hide Decimal, Erase;
    assert n in ActiveRequests(s);
    assert ActiveRequests(Ended(s, n)) == ActiveRequests(s) - {n};
    assert ActiveRequests(Ended(s, n).(refs := Drop(s.refs))) == ActiveRequests(Ended(s, n));
  }

  /** The connection, or the callback, before it gives its reference back. */
  function Gone(s: State, step: Step): State {
    if step.DropConnection? then s.(alive := false) else s.(completed := true)
  }

  function Dropped(s: State, step: Step): References {
    if step.DropConnection? then DropByConnection(s.refs) else DropByCallback(s.refs)
  }

  lemma SameRequests(s: State, s': State)
    requires s'.requests == s.requests
    ensures ActiveRequests(s') == ActiveRequests(s)
  {
    SameActive(s, s');
  }

  lemma HolderCounted(s: State, step: Step)
    requires CountRight(s) && Enabled(s, step) && (step.DropConnection? || step.CompleteSubscription?)
    ensures s.refs.frees == 0 && CountRight(Gone(s, step).(refs := Dropped(s, step)))
  {
    hide ActiveRequests, Counted, DropByConnection, DropByCallback;
    SameRequests(s, Gone(s, step).(refs := Dropped(s, step)));
    HolderCounts(s.refs, |ActiveRequests(s)|);
  }

  lemma ClockIs(s: State)
    requires Consistent(s)
    ensures 0 <= s.now < INT64_LIMIT
  {
    hide SlotsBelong, RequestRight, MessageRight;
  }

  lemma HolderGone(s: State, step: Step)
    requires Consistent(s) && CountRight(s) && Enabled(s, step) && (step.DropConnection? || step.CompleteSubscription?)
    ensures Gone(s, step).refs.frees == 0 && Consistent(Gone(s, step))
    ensures CountRight(Gone(s, step).(refs := Dropped(s, step)))
  {
    hide Consistent, CountRight, Dropped;
    HolderCounted(s, step);
    ClockIs(s);
    Elsewhere(s, Gone(s, step));
  }

  // ---------- Runs ----------

  lemma NothingTaken(s: State, n: nat)
    requires Decimal(n) in s.slots.replies && Content(s.slots, Decimal(n)).None?
    ensures Take(s.slots, Decimal(n)) == s.slots
  {
    hide Decimal;
  }

  lemma CheckedPhase(s: State, n: nat)
    requires n in s.requests && s.requests[n].Waiting? && Content(s.slots, Decimal(n)).None?
    requires RequestRight(s, n) && 0 <= s.now < INT64_LIMIT
    ensures var p := CheckPhase(s, s.requests[n], None);
            PhaseRight(s, n, p) && HasSlot(p) && !p.Holding? && SlotFrom(p) == SlotFrom(s.requests[n])
  {
    hide Decimal, First, Remaining, WaitMs;
  }

  lemma CheckedWithoutReply(s: State, n: nat)
    requires Consistent(s) && n in s.requests && s.requests[n].Waiting? && Content(s.slots, Decimal(n)).None?
    ensures Consistent(Next(s, Check(n)))
    ensures Next(s, Check(n)).slots == s.slots
  {
    hide Decimal, Value, MessageRight, First, RequestRight, PhaseRight, CheckPhase, Content;
    SlotOfToken(s, n);
    assert RequestRight(s, n);
    NothingTaken(s, n);
    CheckedPhase(s, n);
    PhaseChanged(s, n, CheckPhase(s, s.requests[n], None));
  }

  lemma RequestStep(s: State, step: Step)
    requires Consistent(s) && Enabled(s, step)
    requires step.FailToPublish? || step.StartWaiting? || step.Interrupt?
    ensures Consistent(Next(s, step))
  {
    hide Decimal, Value, MessageRight, First, SlotsBelong;
    assert RequestRight(s, step.n);
    PhaseChanged(s, step.n, Next(s, step).requests[step.n]);
  }

  lemma NextConsistent(s: State, step: Step)
    requires Consistent(s) && Enabled(s, step)
    requires !step.Return? && !step.DropConnection? && !step.CompleteSubscription?
    ensures Consistent(Next(s, step))
  {
    hide SlotsBelong, RequestRight, MessageRight;
    match step {
      case Begin => Numbering(s);
      case CreateSlot(n) => Creating(s, n);
      case FailToPublish(n) => RequestStep(s, step);
      case StartWaiting(n, _) => RequestStep(s, step);
      case Check(n) =>
        if Content(s.slots, Decimal(n)).Some? {
          Taking(s, n);
        } else {
          CheckedWithoutReply(s, n);
        }
      case Interrupt(n) => RequestStep(s, step);
      case Consume(n) => Consuming(s, n);
      case Receive(d) => Receiving(s, d);
      case Tick(time) => Elsewhere(s, s.(now := time));
    }
  }

  lemma NewNumber(s: State)
    requires Consistent(s)
    ensures s.counter + 1 !in s.requests
  {
    hide Consistent;
    NumbersSoFar(s);
  }

  lemma NextReferences(s: State, step: Step)
    requires Invariant(s) && Enabled(s, step)
    requires !step.Return? && !step.DropConnection? && !step.CompleteSubscription?
    ensures CountRight(Next(s, step))
  {
    hide Consistent, Decimal, Put, Take, Deliver, Destroy, Content, Deadline, Remaining, WaitMs;
    if step.Begin? {
      NewNumber(s);
      OneMoreActive(s);
    } else {
      SameActive(s, Next(s, step));
    }
  }

  lemma EndedReferences(s: State, n: nat)
    requires n in s.requests && s.requests[n].Leaving?
    ensures Ended(s, n).refs == s.refs
  {
  }

  lemma InvariantKept(s: State, step: Step)
    requires Invariant(s) && Enabled(s, step)
    ensures Invariant(Next(s, step))
  {
    hide Consistent, Release, CountRight, Ended, Drop, DropByConnection, DropByCallback;
    match step {
      case Return(n) =>
        Ending(s, n);
        OneLessActive(s, n);
        EndedReferences(s, n);
        Releasing(Ended(s, n), Drop(s.refs));
      case DropConnection =>
        HolderGone(s, step);
        Releasing(Gone(s, step), Dropped(s, step));
      case CompleteSubscription =>
        HolderGone(s, step);
        Releasing(Gone(s, step), Dropped(s, step));
      case _ =>
        NextConsistent(s, step);
        NextReferences(s, step);
    }
  }

  /** The steps can be taken one after the other. */
  ghost predicate CanRun(s: State, steps: seq<Step>)
    decreases |steps|
  {
    steps == [] || (Enabled(s, steps[0]) && CanRun(Next(s, steps[0]), steps[1..]))
  }

  ghost function Run(s: State, steps: seq<Step>): State
    requires CanRun(s, steps)
    decreases |steps|
  {
    if steps == [] then s else Run(Next(s, steps[0]), steps[1..])
  }

  /** A run from one protocol state to another. */
  ghost predicate Leads(s: State, steps: seq<Step>, t: State) {
    CanRun(s, steps) && Run(s, steps) == t
  }

  lemma {:induction false} LeadsOn(s: State, steps: seq<Step>, t: State, step: Step)
    requires Leads(s, steps, t) && Enabled(t, step)
    ensures Leads(s, steps + [step], Next(t, step))
    decreases |steps|
  {
    hide Next, Enabled;
    if steps == [] {
      assert steps + [step] == [step] && [step][1..] == [];
      assert CanRun(s, [step]) && Run(s, [step]) == Run(Next(s, step), [step][1..]);
    } else {
      LeadsOn(Next(s, steps[0]), steps[1..], t, step);
      assert (steps + [step])[1..] == steps[1..] + [step] && (steps + [step])[0] == steps[0];
    }
  }

  lemma NoSteps(s: State)
    ensures Leads(s, [], s)
  {
  }

  lemma {:induction false} LeadsThrough(s: State, steps: seq<Step>, t: State, more: seq<Step>, u: State)
    requires Leads(s, steps, t) && Leads(t, more, u)
    ensures Leads(s, steps + more, u)
    decreases |steps|
  {
    hide Next, Enabled;
    if steps == [] {
      assert [] + more == more;
    } else {
      LeadsThrough(Next(s, steps[0]), steps[1..], t, more, u);
      assert (steps + more)[1..] == steps[1..] + more && (steps + more)[0] == steps[0];
    }
  }

  lemma {:induction false} RunInvariant(s: State, steps: seq<Step>)
    requires Invariant(s) && CanRun(s, steps)
    ensures Invariant(Run(s, steps))
    decreases |steps|
  {
    hide Invariant, Next, Enabled;
    if steps == [] {
    } else {
      InvariantKept(s, steps[0]);
      RunInvariant(Next(s, steps[0]), steps[1..]);
    }
  }

  /** The states that some interleaving leads to. */
  ghost predicate Reachable(s: State) {
    exists prefix: string, steps: seq<Step> :: CanRun(Initial(prefix), steps) && s == Run(Initial(prefix), steps)
  }

  lemma InitialInvariant(prefix: string)
    ensures Invariant(Initial(prefix))
  {
    var s := Initial(prefix);
    forall m: nat ensures MessageRight(s, m) {
    }
  }

  lemma ReachableInvariant(s: State)
    requires Reachable(s)
    ensures Invariant(s)
  {
    hide Invariant, CanRun, Run;
    var prefix: string, steps: seq<Step> :| CanRun(Initial(prefix), steps) && s == Run(Initial(prefix), steps);
    InitialInvariant(prefix);
    RunInvariant(Initial(prefix), steps);
  }

  /** Another step leads from a reachable state to a reachable state. */
  lemma ReachableOn(s: State, step: Step)
    requires Reachable(s) && Enabled(s, step)
    ensures Reachable(Next(s, step))
  {
    hide CanRun, Run, Next, Enabled;
    var prefix: string, steps: seq<Step> :| CanRun(Initial(prefix), steps) && s == Run(Initial(prefix), steps);
    LeadsOn(Initial(prefix), steps, s, step);
    assert CanRun(Initial(prefix), steps + [step]) && Run(Initial(prefix), steps + [step]) == Next(s, step);
  }

  lemma InitialReachable(prefix: string)
    ensures Reachable(Initial(prefix))
  {
    assert CanRun(Initial(prefix), []) && Run(Initial(prefix), []) == Initial(prefix);
  }

  // ---------- What holds in every interleaving ----------

  datatype Owner = Slot(token: string) | Request(n: nat)

  /** Everything that refers to a message. */
  ghost function Owners(s: State, m: Message): set<Owner> {
    (set t | t in s.slots.replies && s.slots.replies[t] == Some(m) :: Slot(t)) +
    (set n | n in s.requests && s.requests[n].Holding? && s.requests[n].msg == m :: Request(n))
  }

  lemma OwnersAre(s: State, m: Message)
    requires Consistent(s)
    ensures m >= |s.history| ==> Owners(s, m) == {}
    ensures m < |s.history| ==>
              Owners(s, m) == (if InSlot(s, m) then {Slot(TokenOf(s, m).value)} else {}) +
                              (if Held(s, m) then {Request(Value(TokenOf(s, m).value))} else {})
  {
    hide First, Decimal, Value, TokenOf, RequestRight, MessageRight;
    forall t | t in s.slots.replies && s.slots.replies[t] == Some(m)
      ensures m < |s.history| && InSlot(s, m) && TokenOf(s, m) == Some(t)
    {
      StoredMessage(s, Value(t));
    }
    forall n | n in s.requests && s.requests[n].Holding? && s.requests[n].msg == m
      ensures m < |s.history| && Held(s, m) && n == Value(TokenOf(s, m).value)
    {
      HeldMessage(s, n);
      ValueOfDecimal(n);
    }
  }

  /** Each message that was received has one owner until it is destroyed, and it is destroyed once. */
  lemma OneOwner(s: State, m: Message)
    requires Reachable(s)
    ensures |Owners(s, m)| + s.slots.destroyed[m] == if m < |s.history| then 1 else 0
  {
    hide First, Decimal, Value, TokenOf, RequestRight, SlotsBelong, Reachable, InSlot, Held, Owners;
    ReachableInvariant(s);
    OwnersAre(s, m);
    assert MessageRight(s, m);
  }

  /** No message is in two slots, as the destructor of the replies relies on. */
  lemma NoSharedMessage(s: State)
    requires Reachable(s)
    ensures Unshared(s.slots.replies)
  {
    hide First, Decimal, Value, TokenOf, RequestRight, MessageRight, Reachable, Run, CanRun;
    ReachableInvariant(s);
    forall t, u | t in s.slots.replies && u in s.slots.replies && s.slots.replies[t].Some? &&
                  s.slots.replies[t] == s.slots.replies[u]
      ensures t == u
    {
      StoredMessage(s, Value(t));
      StoredMessage(s, Value(u));
    }
  }

  lemma OwnerIsActive(s: State, m: Message)
    requires Consistent(s)
    ensures InSlot(s, m) || Held(s, m) ==> exists n :: n in s.requests && Active(s, n)
  {
    hide First, Decimal, Value, RequestRight, MessageRight, Addressed;
    if InSlot(s, m) || Held(s, m) {
      assert Active(s, Value(TokenOf(s, m).value));
    }
  }

  /** When the replies are freed, every message that was received has been destroyed, none of them twice. */
  lemma AllDestroyed(s: State, m: Message)
    requires Reachable(s) && s.refs.frees > 0
    ensures s.slots.destroyed[m] == if m < |s.history| then 1 else 0
  {
    hide First, Decimal, Value, RequestRight, Reachable, Addressed, InSlot, Held, SlotsBelong;
    ReachableInvariant(s);
    assert MessageRight(s, m);
    OwnerIsActive(s, m);
    assert forall n :: n in s.requests && Active(s, n) ==> n in ActiveRequests(s);
  }

  lemma HoldersAre(s: State)
    requires Reachable(s)
    ensures (s.refs.connection <==> s.alive) && (s.refs.callback <==> !s.completed)
  {
    hide Consistent, Reachable;
    ReachableInvariant(s);
  }

  /** The use count, which is changed where a reference is copied or dropped, is the number of the holders: the living
      connection, the callback until its completion, and the requests that have not finished.  The replies are freed
      once, when there are no holders left, and no step uses them afterwards. */
  lemma FreedExactly(s: State)
    requires Reachable(s)
    ensures s.refs.uses == Bit(s.alive) + Bit(!s.completed) + |set n | n in s.requests && !s.requests[n].Finished?|
    ensures (s.refs.connection <==> s.alive) && (s.refs.callback <==> !s.completed)
    ensures s.refs.frees == if s.refs.uses == 0 then 1 else 0
    ensures s.refs.frees == 1 <==> !s.alive && s.completed && forall n :: n in s.requests ==> s.requests[n].Finished?
    ensures s.refs.frees == 1 ==> forall step :: Enabled(s, step) ==> step.Tick?
  {
    hide Consistent, Reachable;
    ReachableInvariant(s);
    assert ActiveRequests(s) == set n | n in s.requests && !s.requests[n].Finished?;
    assert forall n :: n in s.requests && !s.requests[n].Finished? <==> n in ActiveRequests(s);
  }

  /** There is a slot for each request that has one, and no other: the subscript in the wait loop creates none. */
  lemma SlotsAreRequests(s: State)
    requires Reachable(s)
    ensures s.slots.replies.Keys == set n | n in s.requests && HasSlot(s.requests[n]) :: Decimal(n)
    ensures forall n :: n in s.requests && s.requests[n].Waiting? ==> Touch(s.slots, Decimal(n)) == s.slots
  {
    hide RequestRight, MessageRight, CountRight, Decimal, Value, Reachable;
    ReachableInvariant(s);
    assert forall t :: t in s.slots.replies ==> Decimal(Value(t)) == t;
  }

  /** A request that returns a reply returns the first one that was delivered to its own subject after its slot was
      created, and no other request returns that message. */
  lemma RepliesAreRouted(s: State, n: nat, m: Message)
    requires Reachable(s) && n in s.requests && s.requests[n].Finished?
    requires s.requests[n].outcome == Replied(m) || s.requests[n].outcome == NobodyResponds(m)
    ensures s.requests[n].since <= m < s.requests[n].until <= |s.history|
    ensures s.history[m].subject == Some(s.prefix + Decimal(n))
    ensures forall i :: s.requests[n].since <= i < m ==> s.history[i].subject != Some(s.prefix + Decimal(n))
    ensures s.requests[n].outcome.NobodyResponds? <==> s.history[m].noResponders
    ensures forall k :: k in s.requests && s.requests[k].Finished? && k != n ==>
                          s.requests[k].outcome != Replied(m) && s.requests[k].outcome != NobodyResponds(m)
  {
    hide First, Decimal, SlotsBelong, MessageRight, CountRight, SlotRight, Reachable;
    ReachableInvariant(s);
    assert RequestRight(s, n);
    var since, until := s.requests[n].since, s.requests[n].until;
    forall i | since <= i < m ensures s.history[i].subject != Some(Subject(s, n)) {
      if s.history[i].subject == Some(Subject(s, n)) {
        FirstMeaning(s.history, Subject(s, n), since, until, i);
      }
    }
    forall k | k in s.requests && s.requests[k].Finished? && k != n
      ensures s.requests[k].outcome != Replied(m) && s.requests[k].outcome != NobodyResponds(m)
    {
      assert RequestRight(s, k);
      OtherToken(n, k);
      assert Subject(s, n)[|s.prefix|..] == Decimal(n) && Subject(s, k)[|s.prefix|..] == Decimal(k);
    }
  }

  /** A request that timed out lost no reply: none was delivered to it while it had its slot and waited. */
  lemma NoReplyLost(s: State, n: nat, i: nat)
    requires Reachable(s) && n in s.requests && s.requests[n].Finished? && s.requests[n].outcome.TimedOut?
    requires s.requests[n].since <= i < s.requests[n].until
    ensures i < |s.history| && s.history[i].subject != Some(s.prefix + Decimal(n))
  {
    hide First, Decimal, SlotsBelong, MessageRight, CountRight, SlotRight, Reachable;
    ReachableInvariant(s);
    assert RequestRight(s, n);
    if s.history[i].subject == Some(Subject(s, n)) {
      FirstMeaning(s.history, Subject(s, n), s.requests[n].since, s.requests[n].until, i);
    }
  }

  /** A request that waits, with its deadline, or that has stopped waiting, after some time. */
  predicate WaitsUntil(s: State, n: nat, deadline: int, start: int) {
    n in s.requests && n <= s.counter && !s.requests[n].Numbered? && !s.requests[n].Inserted? && s.now >= start &&
    (s.requests[n].Waiting? ==> s.requests[n].deadline == deadline)
  }

  lemma DeadlineKept(s: State, step: Step, n: nat, deadline: int, start: int)
    requires Enabled(s, step) && WaitsUntil(s, n, deadline, start)
    ensures WaitsUntil(Next(s, step), n, deadline, start)
  {
    hide Decimal, Content, Take, Erase, Deliver, Destroy, Remaining, WaitMs, Drop;
  }

  lemma {:induction false} DeadlineKeptByRun(s: State, steps: seq<Step>, n: nat, deadline: int, start: int)
    requires CanRun(s, steps) && WaitsUntil(s, n, deadline, start)
    ensures WaitsUntil(Run(s, steps), n, deadline, start)
    decreases |steps|
  {
    hide Next, Enabled, WaitsUntil;
    if steps == [] {
    } else {
      DeadlineKept(s, steps[0], n, deadline, start);
      DeadlineKeptByRun(Next(s, steps[0]), steps[1..], n, deadline, start);
    }
  }

  /** The next check of a request raises its timeout. */
  predicate TimesOut(s: State, n: nat) {
    Enabled(s, Check(n)) && Content(s.slots, Decimal(n)).None? && Remaining(s.requests[n].deadline, s.now) <= 0
  }

  /** Steps after which a request raises its timeout before the time that it was given is over, by more than the part
      of a microsecond that a wait does not see. */
  ghost predicate Early(s: State, n: nat, timeoutMs: int, steps: seq<Step>)
    requires Enabled(s, StartWaiting(n, timeoutMs))
  {
    var u := Next(s, StartWaiting(n, timeoutMs));
    CanRun(u, steps) && TimesOut(Run(u, steps), n) &&
    Run(u, steps).now + NS_PER_US <= s.now + Nanoseconds(timeoutMs)
  }

  /** A check moves a request out of its wait exactly if it takes a reply or raises the timeout. */
  lemma ChecksAre(s: State, n: nat)
    requires Enabled(s, Check(n))
    ensures TimesOut(s, n) <==>
            Next(s, Check(n)).requests[n] == Leaving(s.requests[n].since, |s.history|, TimedOut)
    ensures Content(s.slots, Decimal(n)).Some? <==> Next(s, Check(n)).requests[n].Holding?
  {
    hide Decimal, Content, Take, Remaining;
  }

  lemma NumberOfRequest(s: State, n: nat)
    requires Reachable(s) && n in s.requests
    ensures n <= s.counter && 0 <= s.now < INT64_LIMIT
  {
    hide Reachable, PhaseRight, SlotRight, SlotsBelong, MessageRight, CountRight;
    ReachableInvariant(s);
    assert RequestRight(s, n);
  }

  lemma OneTick(u: State, time: int)
    requires Enabled(u, Tick(time))
    ensures CanRun(u, [Tick(time)]) && Run(u, [Tick(time)]) == u.(now := time)
  {
    assert [Tick(time)][1..] == [];
    assert CanRun(u.(now := time), []) && Run(u.(now := time), []) == u.(now := time);
  }

  lemma EarlyIfOverflows(s: State, n: nat, timeoutMs: int)
    requires Enabled(s, StartWaiting(n, timeoutMs)) && 0 <= s.now < INT64_LIMIT
    requires Overflows(s.now, timeoutMs) && Content(s.slots, Decimal(n)).None?
    ensures exists steps: seq<Step> :: Early(s, n, timeoutMs, steps)
  {
    hide Overflows, Content, Decimal, Deadline, Remaining, Nanoseconds, EarlyEnd;
    ExpiresEarly(s.now, timeoutMs);
    var u := Next(s, StartWaiting(n, timeoutMs));
    var end := EarlyEnd(s.now, timeoutMs);
    OneTick(u, end);
    assert Early(s, n, timeoutMs, [Tick(end)]);
  }

  lemma ClockKept(s: State, step: Step)
    requires Enabled(s, step) && s.now < INT64_LIMIT
    ensures Next(s, step).now < INT64_LIMIT
  {
    hide Decimal, Content, Take, Erase, Deliver, Destroy, Remaining, WaitMs, Drop;
  }

  lemma {:induction false} ClockKeptByRun(s: State, steps: seq<Step>)
    requires CanRun(s, steps) && s.now < INT64_LIMIT
    ensures Run(s, steps).now < INT64_LIMIT
    decreases |steps|
  {
    hide Enabled, Next;
    if steps == [] {
    } else {
      ClockKept(s, steps[0]);
      ClockKeptByRun(Next(s, steps[0]), steps[1..]);
    }
  }

  lemma NotEarly(s: State, n: nat, timeoutMs: int, steps: seq<Step>)
    requires Enabled(s, StartWaiting(n, timeoutMs)) && n <= s.counter && 0 <= s.now < INT64_LIMIT
    requires !Overflows(s.now, timeoutMs)
    ensures !Early(s, n, timeoutMs, steps)
  {
    hide Overflows, CanRun, Run, Content, Decimal, Deadline, Remaining, Nanoseconds;
    var u := Next(s, StartWaiting(n, timeoutMs));
    if Early(s, n, timeoutMs, steps) {
      DeadlineKeptByRun(u, steps, n, Deadline(s.now, timeoutMs), s.now);
      ClockKeptByRun(u, steps);
      ExpiresInTime(s.now, timeoutMs, Run(u, steps).now);
    }
  }

  /** No run raises a timeout early, unless its conversion to nanoseconds overflows. */
  lemma NotBeforeTimeout(s: State, n: nat, timeoutMs: int)
    requires Reachable(s) && Enabled(s, StartWaiting(n, timeoutMs))
    ensures !Overflows(s.now, timeoutMs) ==> forall steps: seq<Step> :: !Early(s, n, timeoutMs, steps)
    ensures Overflows(s.now, timeoutMs) && Content(s.slots, Decimal(n)).None? ==>
              exists steps: seq<Step> :: Early(s, n, timeoutMs, steps)
  {
    hide Consistent, Overflows, Reachable, Early;
    NumberOfRequest(s, n);
    if Overflows(s.now, timeoutMs) {
      if Content(s.slots, Decimal(n)).None? {
        EarlyIfOverflows(s, n, timeoutMs);
      }
    } else {
      forall steps: seq<Step> ensures !Early(s, n, timeoutMs, steps) {
        NotEarly(s, n, timeoutMs, steps);
      }
    }
  }

  lemma CheckLeft(t: State, n: nat)
    requires Enabled(t, Check(n))
    ensures var p := Next(t, Check(n)).requests[n]; var left := Left(t.requests[n].deadline, t.now);
            if Content(t.slots, Decimal(n)).Some? then p.Holding? && p.msg == Content(t.slots, Decimal(n)).value
            else if Remaining(t.requests[n].deadline, t.now) <= 0 then p.Leaving? && p.outcome.TimedOut?
            else p.Waiting? && p.wait.Some? && p.wait.value.from == t.now &&
                 left - 1000 < p.wait.value.until - t.now < left + 1_000_000
  {
    hide Content, Decimal, Take, Left, WaitMs;
    Expired(t.requests[n].deadline, t.now);
    if Remaining(t.requests[n].deadline, t.now) > 0 {
      WaitCovers(Left(t.requests[n].deadline, t.now));
    }
  }

  /** Any check after any steps, with any timeout that does not overflow: a reply is taken; if there is none, the timeout
      is raised exactly when its milliseconds are over, to less than a microsecond, and at once if there are none; otherwise the
      request waits for what remains, to less than a microsecond, and less than a millisecond longer. */
  lemma TimeoutsExactly(s: State, n: nat, timeoutMs: int, steps: seq<Step>)
    requires Reachable(s) && Enabled(s, StartWaiting(n, timeoutMs)) && 1_000_000 * timeoutMs < 0x8000_0000_0000_0000
    requires CanRun(Next(s, StartWaiting(n, timeoutMs)), steps)
    requires Enabled(Run(Next(s, StartWaiting(n, timeoutMs)), steps), Check(n))
    ensures var t := Run(Next(s, StartWaiting(n, timeoutMs)), steps); var p := Next(t, Check(n)).requests[n];
            if Content(t.slots, Decimal(n)).Some? then p.Holding? && p.msg == Content(t.slots, Decimal(n)).value
            else if timeoutMs <= 0 || t.now - s.now > 1_000_000 * timeoutMs - 1000 then p.Leaving? && p.outcome.TimedOut?
            else
              var left := s.now + 1_000_000 * timeoutMs - t.now;
              p.Waiting? && p.wait.Some? && p.wait.value.from == t.now &&
              left - 1000 < p.wait.value.until - t.now < left + 1_000_000
  {
    hide Reachable, CanRun, Run, Content, Decimal, Deadline, Remaining, WaitMs, Take, Left;
    NumberOfRequest(s, n);
    var u := Next(s, StartWaiting(n, timeoutMs));
    var t := Run(u, steps);
    DeadlineKeptByRun(u, steps, n, Deadline(s.now, timeoutMs), s.now);
    ClockKeptByRun(u, steps);
    OverExactly(s.now, timeoutMs, t.now);
    CheckLeft(t, n);
  }

  /** The longest timeout is raised by the first check, if there is no reply yet. */
  lemma LongestIsRaisedAtOnce(s: State, n: nat)
    requires Reachable(s) && Enabled(s, StartWaiting(n, 0x7FFF_FFFF_FFFF_FFFF)) && Content(s.slots, Decimal(n)).None?
    ensures var t := Next(s, StartWaiting(n, 0x7FFF_FFFF_FFFF_FFFF));
            Enabled(t, Check(n)) && Next(t, Check(n)).requests[n] == Leaving(t.requests[n].since, |t.history|, TimedOut)
  {
    hide Reachable, Overflows, Content, Decimal, Deadline, Remaining, Nanoseconds, EarlyEnd;
    NumberOfRequest(s, n);
    LongestTimeout(s.now);
    ExpiresEarly(s.now, INT64_LIMIT - 1);
    ChecksAre(Next(s, StartWaiting(n, INT64_LIMIT - 1)), n);
  }

  /** A wait covers the time that remained at its check, to less than a microsecond, and ends less than a millisecond
      after it.  It reaches the deadline unless what remained was some milliseconds and a part of a microsecond. */
  lemma WaitsAreRounded(s: State, n: nat)
    requires Reachable(s) && n in s.requests && s.requests[n].Waiting? && s.requests[n].wait.Some?
    ensures var left := Left(s.requests[n].deadline, s.requests[n].wait.value.from);
            var waited := s.requests[n].wait.value.until - s.requests[n].wait.value.from;
            left - NS_PER_US < waited < left + NS_PER_MS &&
            (waited >= left <==> left % NS_PER_MS == 0 || left % NS_PER_MS >= NS_PER_US)
  {
    hide SlotsBelong, MessageRight, CountRight, SlotRight, Reachable, Decimal, Left, WaitMs;
    ReachableInvariant(s);
    assert RequestRight(s, n);
    var wait := s.requests[n].wait.value;
    Expired(s.requests[n].deadline, wait.from);
    WaitCovers(Left(s.requests[n].deadline, wait.from));
  }

  lemma WaitBegan(s: State, n: nat)
    requires Reachable(s) && n in s.requests && s.requests[n].Waiting? && s.requests[n].wait.Some?
    ensures 0 <= s.requests[n].wait.value.from && s.now < INT64_LIMIT
    ensures Remaining(s.requests[n].deadline, s.requests[n].wait.value.from) > 0
  {
    hide SlotsBelong, MessageRight, CountRight, SlotRight, Reachable, Decimal, Remaining, WaitMs;
    ReachableInvariant(s);
    assert RequestRight(s, n);
  }

  /** A reachable wait that ends a nanosecond before its deadline: the request has a timeout of 2 ms, and its check comes
      999999 ns after its start. */
  lemma WaitEndsEarly() returns (s: State)
    ensures Reachable(s) && 1 in s.requests
    ensures s.requests[1] == Waiting(0, 2_000_000, Some(Wait(999_999, 1_999_999)))
  {
    hide Reachable, Wrap;
    var s0 := Initial("");
    InitialReachable("");
    ReachableOn(s0, Begin);
    var s1 := Next(s0, Begin);
    ReachableOn(s1, CreateSlot(1));
    var s2 := Next(s1, CreateSlot(1));
    NoWrap(2_000_000);
    ReachableOn(s2, StartWaiting(1, 2));
    var s3 := Next(s2, StartWaiting(1, 2));
    ReachableOn(s3, Tick(999_999));
    var s4 := Next(s3, Tick(999_999));
    NoWrap(2_000_000 - 999_999);
    ReachableOn(s4, Check(1));
    s := Next(s4, Check(1));
  }

  /** No request waits twice in vain: a check after the end of a wait takes the reply or raises the timeout. */
  lemma OneWaitSuffices(s: State, n: nat)
    requires Reachable(s) && n in s.requests && s.requests[n].Waiting? && s.requests[n].wait.Some?
    requires s.requests[n].wait.value.until <= s.now
    ensures Next(s, Check(n)).requests[n].Holding? ||
            Next(s, Check(n)).requests[n] == Leaving(s.requests[n].since, |s.history|, TimedOut)
  {
    hide Decimal, Content, Take, Reachable, Left, Remaining, PhaseRight;
    WaitsAreRounded(s, n);
    WaitBegan(s, n);
    var wait := s.requests[n].wait.value;
    Expired(s.requests[n].deadline, wait.from);
    Expired(s.requests[n].deadline, s.now);
    LeftLater(s.requests[n].deadline, wait.from, s.now);
    ChecksAre(s, n);
  }
}
