/** The reply subscription of a connection: it is created by the first request, and the closure of its callback holds
    a reference to the replies for as long as the C client may call it. */
module ReplySubscription {
  import opened Wrappers
  import opened ReplyReferences
  import P = ReplyProtocol

  /** One attempt to subscribe, with the references to the replies that it made.  The closure is the callback's
      heap-allocated reference. */
  datatype Attempt = Attempt(
    subscribed: bool,
    completionSet: bool,
    unsubscribed: bool,
    running: nat,
    completed: bool,
    closureFrees: nat,
    refs: References)

  /** The replies are known by the number of the attempt that created them; the requests hold the replies that they were
      given. */
  datatype State = State(alive: bool, replyMux: Option<nat>, replySub: Option<nat>, attempts: seq<Attempt>,
                         requests: map<nat, nat>)

  /** What the C client answers to the three calls of an attempt. */
  datatype Answers = Answers(inbox: bool, subscribe: bool, setCompletion: bool)

  /** What an attempt leaves behind.  Where it fails, the variable of the call gives its reference back; the closure is
      deleted only where the callback cannot be called. */
  function TryToSubscribe(a: Answers): Attempt {
    var refs := CopyToCallback(CREATED);
    if !a.subscribe then Attempt(false, false, false, 0, false, 1, Drop(DropByCallback(refs)))
    else if !a.setCompletion then Attempt(true, false, true, 0, false, 0, Drop(refs))
    else Attempt(true, true, false, 0, false, 0, CopyToConnection(refs))
  }

  function Get(s: State, a: Answers, r: nat): State {
    match s.replyMux
    case Some(i) =>
      if i < |s.attempts| then
        s.(attempts := s.attempts[i := s.attempts[i].(refs := Copy(s.attempts[i].refs))], requests := s.requests[r := i])
      else s
    case None =>
      if !a.inbox then s
      else
        var i := |s.attempts|;
        var t := s.(attempts := s.attempts + [TryToSubscribe(a)]);
        if a.subscribe && a.setCompletion then t.(replyMux := Some(i), replySub := Some(i), requests := s.requests[r := i])
        else t.(replySub := None)
  }

  function EndSubscription(s: State): State {
    match s.replySub
    case Some(i) =>
      if i < |s.attempts| then s.(replySub := None, attempts := s.attempts[i := s.attempts[i].(unsubscribed := true)])
      else s
    case None => s
  }

  /** The field of the connection goes with it. */
  function DropField(s: State): State {
    match s.replyMux
    case Some(i) =>
      if i < |s.attempts| then
        s.(replyMux := None, attempts := s.attempts[i := s.attempts[i].(refs := DropByConnection(s.attempts[i].refs))])
      else s
    case None => s
  }

  function EndRequest(s: State, r: nat): State {
    if r in s.requests && s.requests[r] < |s.attempts| then
      var i := s.requests[r];
      s.(attempts := s.attempts[i := s.attempts[i].(refs := Drop(s.attempts[i].refs))], requests := s.requests - {r})
    else s
  }

  function Initial(): State {
    State(true, None, None, [], map[])
  }

  /** The fields of the connection, changed under the lock that serializes the creation of the subscription. */
  class ReplyInit {
    var alive: bool
    var replyMux: Option<nat>
    var replySub: Option<nat>
    var attempts: seq<Attempt>
    var requests: map<nat, nat>

    constructor ()
      ensures View() == Initial()
    {
      alive, replyMux, replySub, attempts, requests := true, None, None, [], map[];
    }

    ghost function View(): State
      reads this
    {
      State(alive, replyMux, replySub, attempts, requests)
    }

    /** The replies to use for a request; None if an exception was raised. */
    method GetReplyMux(answers: Answers, r: nat) returns (mux: Option<nat>)
      requires replyMux.Some? ==> replyMux.value < |attempts|
      modifies this
      ensures View() == Get(old(View()), answers, r)
      ensures mux == replyMux
      ensures mux.Some? <==> old(replyMux).Some? || (answers.inbox && answers.subscribe && answers.setCompletion)
      ensures requests == if mux.Some? then old(requests)[r := mux.value] else old(requests)
      ensures |attempts| == |old(attempts)| + if old(replyMux).None? && answers.inbox then 1 else 0
      ensures alive == old(alive) && (old(replyMux).Some? ==> mux == old(replyMux) && replySub == old(replySub))
      ensures old(replyMux).None? && answers.inbox ==>
                attempts[..|old(attempts)|] == old(attempts) && (mux.Some? ==> mux == replySub == Some(|old(attempts)|))
    {
      if replyMux.Some? {
        var i := replyMux.value;
        attempts := attempts[i := attempts[i].(refs := Copy(attempts[i].refs))];
        requests := requests[r := i];
        return replyMux;
      }
      if !answers.inbox {
        return None;
      }
      var i := |attempts|;
      var closure := CopyToCallback(CREATED);
      if !answers.subscribe {
        attempts := attempts + [Attempt(false, false, false, 0, false, 1, Drop(DropByCallback(closure)))];
        replySub := None;
        return None;
      }
      var attempt := Attempt(true, false, false, 0, false, 0, closure);
      replySub := Some(i);
      if !answers.setCompletion {
        attempts := attempts + [attempt.(unsubscribed := true, refs := Drop(closure))];
        replySub := None;
        return None;
      }
      replyMux := Some(i);
      attempts := attempts + [attempt.(completionSet := true, refs := CopyToConnection(closure))];
      requests := requests[r := i];
      return replyMux;
    }

    /** The destructor ends the subscription; its closure is left to the completion callback. */
    method Destruct()
      requires replySub.Some? ==> replySub.value < |attempts|
      requires replyMux.Some? ==> replyMux.value < |attempts|
      modifies this
      ensures View() == DropField(EndSubscription(old(View()))).(alive := false)
    {
      if replySub.Some? {
        attempts := attempts[replySub.value := attempts[replySub.value].(unsubscribed := true)];
        replySub := None;
      }
      if replyMux.Some? {
        var i := replyMux.value;
        attempts := attempts[i := attempts[i].(refs := DropByConnection(attempts[i].refs))];
        replyMux := None;
      }
      alive := false;
    }
  }

  // ---------- The C client: deliveries and completion ----------

  datatype Step =
    | GetFor(answers: Answers, r: nat)
    | Return(r: nat)
    | Destruct
    | Call(i: nat)
    | CallReturns(i: nat)
    | Complete(i: nat)

  /** A delivery can run from the subscription to its completion, also after the subscription was ended. */
  predicate CanCall(a: Attempt) {
    a.subscribed && !a.completed
  }

  /** The completion is reported only where a callback was set for it, and after the last delivery. */
  predicate Enabled(s: State, step: Step) {
    match step
    case GetFor(_, r) => s.alive && r !in s.requests
    case Return(r) => r in s.requests
    case Destruct => s.alive
    case Call(i) => i < |s.attempts| && CanCall(s.attempts[i])
    case CallReturns(i) => i < |s.attempts| && s.attempts[i].running > 0
    case Complete(i) =>
      i < |s.attempts| && s.attempts[i].completionSet && CanCall(s.attempts[i]) && s.attempts[i].running == 0
  }

  function Next(s: State, step: Step): State
    requires Enabled(s, step)
  {
    match step
    case GetFor(answers, r) => Get(s, answers, r)
    case Return(r) => EndRequest(s, r)
    case Destruct => DropField(EndSubscription(s)).(alive := false)
    case Call(i) => s.(attempts := s.attempts[i := s.attempts[i].(running := s.attempts[i].running + 1)])
    case CallReturns(i) => s.(attempts := s.attempts[i := s.attempts[i].(running := s.attempts[i].running - 1)])
    case Complete(i) =>
      s.(attempts := s.attempts[i := s.attempts[i].(completed := true, closureFrees := s.attempts[i].closureFrees + 1,
                                                    refs := DropByCallback(s.attempts[i].refs))])
  }

  /** A subscription whose replies can reach a request. */
  predicate Usable(a: Attempt) {
    a.subscribed && a.completionSet && !a.unsubscribed
  }

  /** The closure was deleted exactly if the callback will not be called again, and then once; it holds a reference
      until then. */
  predicate ClosureRight(a: Attempt) {
    a.closureFrees == (if !a.subscribed || a.completed then 1 else 0) && (a.refs.callback <==> a.closureFrees == 0) &&
    (a.completed ==> a.running == 0 && a.completionSet) && (!a.subscribed ==> a.running == 0 && !a.completionSet)
  }

  /** The requests that hold the replies of an attempt. */
  function Holders(s: State, i: nat): set<nat> {
    set r | r in s.requests && s.requests[r] == i
  }

  predicate AttemptRight(s: State, i: nat)
    requires i < |s.attempts|
  {
    var a := s.attempts[i];
    ClosureRight(a) && (Usable(a) ==> s.replySub == Some(i)) && (a.refs.connection <==> s.replyMux == Some(i)) &&
    Counted(a.refs, |Holders(s, i)|) && (a.completionSet && s.alive ==> s.replyMux == Some(i))
  }

  predicate FieldsInside(s: State) {
    (s.replySub.Some? ==> s.replySub.value < |s.attempts|) && (s.replyMux.Some? ==> s.replyMux.value < |s.attempts|)
  }

  /** One attempt at most was successful, and its replies are those of the connection and of all requests. */
  predicate SharedRight(s: State)
    requires FieldsInside(s)
  {
    (forall i, j :: 0 <= i < j < |s.attempts| ==> !s.attempts[i].completionSet || !s.attempts[j].completionSet) &&
    (forall r :: r in s.requests ==> s.requests[r] < |s.attempts| && s.attempts[s.requests[r]].completionSet) &&
    (s.replySub.Some? ==> s.replyMux == s.replySub && Usable(s.attempts[s.replySub.value])) &&
    (s.replyMux.Some? ==> s.alive && s.attempts[s.replyMux.value].completionSet)
  }

  predicate Invariant(s: State) {
    FieldsInside(s) && SharedRight(s) && forall i :: 0 <= i < |s.attempts| ==> AttemptRight(s, i)
  }

  /** A step that leaves an attempt and its holders alone. */
  lemma AttemptElsewhere(s: State, t: State, i: nat)
    requires i < |s.attempts| && i < |t.attempts| && AttemptRight(s, i)
    requires t.attempts[i] == s.attempts[i] && Holders(t, i) == Holders(s, i)
    requires t.replySub == Some(i) <==> s.replySub == Some(i)
    requires t.replyMux == Some(i) <==> s.replyMux == Some(i)
    requires t.alive ==> s.alive
    ensures AttemptRight(t, i)
  {
  }

  lemma OneMoreHolder(s: State, r: nat, i: nat)
    requires r !in s.requests
    ensures var t := s.(requests := s.requests[r := i]);
            Holders(t, i) == Holders(s, i) + {r} && |Holders(t, i)| == |Holders(s, i)| + 1 &&
            forall j :: j != i ==> Holders(t, j) == Holders(s, j)
  {
    var t := s.(requests := s.requests[r := i]);
    assert Holders(t, i) == Holders(s, i) + {r} && r !in Holders(s, i);
  }

  lemma OneLessHolder(s: State, r: nat)
    requires r in s.requests
    ensures var i := s.requests[r]; var t := s.(requests := s.requests - {r});
            |Holders(s, i)| == |Holders(t, i)| + 1 && forall j :: j != i ==> Holders(t, j) == Holders(s, j)
  {
    var i := s.requests[r];
    var t := s.(requests := s.requests - {r});
    assert Holders(t, i) == Holders(s, i) - {r} && r in Holders(s, i);
  }

  lemma NoHolders(s: State)
    requires FieldsInside(s) && SharedRight(s)
    ensures Holders(s, |s.attempts|) == {}
  {
  }

  lemma SameHolders(s: State, t: State)
    requires t.requests == s.requests
    ensures forall i :: Holders(t, i) == Holders(s, i)
  {
  }

  lemma CopyRight(s: State, t: State, i: nat)
    requires i < |s.attempts| && i < |t.attempts| && AttemptRight(s, i)
    requires t.alive == s.alive && t.replyMux == s.replyMux && t.replySub == s.replySub
    requires t.attempts[i] == s.attempts[i].(refs := Copy(s.attempts[i].refs)) && s.replyMux == Some(i)
    requires |Holders(t, i)| == |Holders(s, i)| + 1
    ensures AttemptRight(t, i)
  {
    hide Holders;
  }

  lemma GetShared(s: State, a: Answers, r: nat)
    requires Invariant(s) && Enabled(s, GetFor(a, r)) && s.replyMux.Some?
    ensures Invariant(Get(s, a, r))
  {
    hide AttemptRight;
    var t, i := Get(s, a, r), s.replyMux.value;
    OneMoreHolder(s, r, i);
    SameHolders(s.(requests := s.requests[r := i]), t);
    forall j | 0 <= j < |t.attempts| ensures AttemptRight(t, j) {
      assert AttemptRight(s, j);
      if j == i {
        CopyRight(s, t, i);
      } else {
        AttemptElsewhere(s, t, j);
      }
    }
  }

  lemma NoSubscription(s: State)
    requires Invariant(s) && s.replyMux.None? && s.alive
    ensures s.replySub.None? && forall i :: 0 <= i < |s.attempts| ==> !s.attempts[i].completionSet
    ensures s.requests == map[]
  {
    hide Counted, Holders;
    forall i | 0 <= i < |s.attempts| ensures !s.attempts[i].completionSet {
      assert AttemptRight(s, i);
    }
    assert s.requests.Keys == {};
  }

  lemma NewRight(t: State, a: Answers, i: nat)
    requires i < |t.attempts| && t.attempts[i] == TryToSubscribe(a)
    requires a.subscribe && a.setCompletion <==> t.replyMux == Some(i)
    requires t.replySub == t.replyMux
    requires |Holders(t, i)| == if a.subscribe && a.setCompletion then 1 else 0
    ensures AttemptRight(t, i)
  {
    hide Holders;
  }

  lemma Completed(a: Answers)
    ensures TryToSubscribe(a).completionSet <==> a.subscribe && a.setCompletion
    ensures Usable(TryToSubscribe(a)) <==> a.subscribe && a.setCompletion
  {
  }

  lemma GetNew(s: State, a: Answers, r: nat)
    requires Invariant(s) && Enabled(s, GetFor(a, r)) && s.replyMux.None? && a.inbox
    ensures Invariant(Get(s, a, r))
  {
    hide AttemptRight, TryToSubscribe;
    NoSubscription(s);
    NoHolders(s);
    var t, i := Get(s, a, r), |s.attempts|;
    OneMoreHolder(s, r, i);
    SameHolders(if a.subscribe && a.setCompletion then s.(requests := s.requests[r := i]) else s, t);
    NewRight(t, a, i);
    forall j | 0 <= j < |t.attempts| ensures AttemptRight(t, j) {
      if j < i {
        assert AttemptRight(s, j) && Holders(t, j) == Holders(s, j);
        AttemptElsewhere(s, t, j);
      }
    }
    Completed(a);
  }

  lemma DropRight(s: State, t: State, i: nat)
    requires i < |s.attempts| && i < |t.attempts| && AttemptRight(s, i)
    requires t.alive == s.alive && t.replyMux == s.replyMux && t.replySub == s.replySub
    requires t.attempts[i] == s.attempts[i].(refs := Drop(s.attempts[i].refs))
    requires |Holders(s, i)| == |Holders(t, i)| + 1
    ensures AttemptRight(t, i)
  {
    hide Holders;
  }

  lemma Returned(s: State, r: nat)
    requires Invariant(s) && r in s.requests
    ensures Invariant(EndRequest(s, r))
  {
    hide AttemptRight, Counted, Drop;
    var t, i := EndRequest(s, r), s.requests[r];
    OneLessHolder(s, r);
    SameHolders(s.(requests := s.requests - {r}), t);
    forall j | 0 <= j < |t.attempts| ensures AttemptRight(t, j) {
      assert AttemptRight(s, j);
      if j == i {
        DropRight(s, t, i);
      } else {
        AttemptElsewhere(s, t, j);
      }
    }
  }

  lemma FieldDropped(s: State, t: State, i: nat)
    requires i < |s.attempts| && i < |t.attempts| && AttemptRight(s, i)
    requires s.replyMux == Some(i) && !t.alive && t.replyMux.None? && t.replySub.None?
    requires t.attempts[i] == s.attempts[i].(refs := DropByConnection(s.attempts[i].refs),
                                             unsubscribed := t.attempts[i].unsubscribed)
    requires s.attempts[i].unsubscribed || Usable(s.attempts[i]) ==> t.attempts[i].unsubscribed
    requires Holders(t, i) == Holders(s, i)
    ensures AttemptRight(t, i)
  {
    hide Holders;
  }

  lemma UsableIs(s: State, i: nat)
    requires i < |s.attempts| && AttemptRight(s, i) && Usable(s.attempts[i])
    ensures s.replySub == Some(i)
  {
  }

  lemma Destructed(s: State)
    requires Invariant(s) && s.alive
    ensures Invariant(Next(s, Destruct))
  {
    hide Holders, AttemptRight, Usable, DropByConnection;
    var t := Next(s, Destruct);
    SameHolders(s, t);
    forall j | 0 <= j < |t.attempts| ensures AttemptRight(t, j) {
      assert AttemptRight(s, j);
      if Usable(s.attempts[j]) {
        UsableIs(s, j);
      }
      if s.replyMux == Some(j) {
        FieldDropped(s, t, j);
      } else {
        AttemptElsewhere(s, t, j);
      }
    }
  }

  lemma SameUsable(a: Attempt, b: Attempt)
    requires a.subscribed == b.subscribed && a.completionSet == b.completionSet && a.unsubscribed == b.unsubscribed
    ensures Usable(a) == Usable(b)
  {
  }

  lemma CompletionRight(s: State, t: State, i: nat)
    requires i < |s.attempts| && i < |t.attempts| && AttemptRight(s, i) && Holders(t, i) == Holders(s, i)
    requires t.alive == s.alive && t.replyMux == s.replyMux && t.replySub == s.replySub
    requires t.attempts[i] == s.attempts[i].(completed := true, closureFrees := s.attempts[i].closureFrees + 1,
                                             refs := DropByCallback(s.attempts[i].refs))
    requires CanCall(s.attempts[i]) && s.attempts[i].completionSet && s.attempts[i].running == 0
    ensures AttemptRight(t, i)
  {
    hide Holders;
  }

  lemma CallRight(s: State, t: State, i: nat)
    requires i < |s.attempts| && i < |t.attempts| && AttemptRight(s, i) && Holders(t, i) == Holders(s, i)
    requires t.alive == s.alive && t.replyMux == s.replyMux && t.replySub == s.replySub
    requires t.attempts[i] == s.attempts[i].(running := t.attempts[i].running)
    requires CanCall(s.attempts[i]) || s.attempts[i].running > 0
    ensures AttemptRight(t, i)
  {
    hide Holders, Counted;
  }

  lemma ClientStep(s: State, step: Step)
    requires Invariant(s) && Enabled(s, step) && (step.Call? || step.CallReturns? || step.Complete?)
    ensures Invariant(Next(s, step))
  {
    hide Holders, AttemptRight, DropByCallback, Usable;
    var t := Next(s, step);
    SameHolders(s, t);
    SameUsable(s.attempts[step.i], t.attempts[step.i]);
    forall j | 0 <= j < |t.attempts| ensures AttemptRight(t, j) {
      assert AttemptRight(s, j);
      if j != step.i {
        AttemptElsewhere(s, t, j);
      } else if step.Complete? {
        CompletionRight(s, t, j);
      } else {
        CallRight(s, t, j);
      }
    }
  }

  lemma InvariantKept(s: State, step: Step)
    requires Invariant(s) && Enabled(s, step)
    ensures Invariant(Next(s, step))
  {
    hide Invariant;
    match step {
      case GetFor(a, r) =>
        if s.replyMux.Some? {
          GetShared(s, a, r);
        } else if a.inbox {
          GetNew(s, a, r);
        }
      case Return(r) => Returned(s, r);
      case Destruct => Destructed(s);
      case _ => ClientStep(s, step);
    }
  }

  ghost predicate Leads(s: State, steps: seq<Step>, t: State)
    decreases |steps|
  {
    if steps == [] then t == s else Enabled(s, steps[0]) && Leads(Next(s, steps[0]), steps[1..], t)
  }

  lemma {:induction false} RunInvariant(s: State, steps: seq<Step>, t: State)
    requires Invariant(s) && Leads(s, steps, t)
    ensures Invariant(t)
    decreases |steps|
  {
    hide Invariant, Next, Enabled;
    if steps == [] {
    } else {
      InvariantKept(s, steps[0]);
      RunInvariant(Next(s, steps[0]), steps[1..], t);
    }
  }

  lemma AttemptFacts(s: State, i: nat)
    requires i < |s.attempts| && AttemptRight(s, i) && s.attempts[i].completionSet
    ensures s.alive ==> s.replyMux == Some(i) && s.attempts[i].refs.connection
    ensures CanCall(s.attempts[i]) ==> s.attempts[i].refs.callback
  {
  }

  /** After every run, whatever attempts failed in it: a request obtains the replies exactly if there are replies
      already or the three calls of its own attempt succeed; an attempt is made exactly if there are none and the inbox
      could be created, and a successful one is usable.  There are replies exactly if one attempt was successful. */
  lemma RequestsObtainReplies(steps: seq<Step>, s: State, a: Answers, r: nat)
    requires Leads(Initial(), steps, s) && Enabled(s, GetFor(a, r))
    ensures var t := Next(s, GetFor(a, r));
            (r in t.requests <==> s.replyMux.Some? || (a.inbox && a.subscribe && a.setCompletion)) &&
            (r in t.requests ==> t.replyMux == Some(t.requests[r]) && t.requests[r] < |t.attempts|) &&
            |t.attempts| == |s.attempts| + (if s.replyMux.None? && a.inbox then 1 else 0) &&
            (|t.attempts| > |s.attempts| && r in t.requests ==>
               t.requests[r] == |s.attempts| && Usable(t.attempts[|s.attempts|]))
    ensures s.replyMux.Some? <==> exists i :: 0 <= i < |s.attempts| && s.attempts[i].completionSet
  {
    hide Leads, Holders, TryToSubscribe, AttemptRight;
    RunInvariant(Initial(), steps, s);
    Completed(a);
    if i :| 0 <= i < |s.attempts| && s.attempts[i].completionSet {
      assert AttemptRight(s, i);
      AttemptFacts(s, i);
    }
  }

  /** All requests of a connection, whenever they start, share the same replies, which are never replaced. */
  lemma RepliesAreShared(steps: seq<Step>, s: State, r: nat, q: nat)
    requires Leads(Initial(), steps, s) && r in s.requests && q in s.requests
    ensures s.requests[r] == s.requests[q]
    ensures s.alive ==> s.replyMux == Some(s.requests[r])
  {
    hide Next, Enabled, Leads;
    RunInvariant(Initial(), steps, s);
    assert AttemptRight(s, s.requests[r]);
  }

  /** In every run there is at most one usable subscription, and no closure is deleted twice or while the callback
      runs or may run. */
  lemma ClosuresAreSafe(steps: seq<Step>, s: State, i: nat, j: nat)
    requires Leads(Initial(), steps, s) && i < |s.attempts| && j < |s.attempts|
    ensures Usable(s.attempts[i]) && Usable(s.attempts[j]) ==> i == j && s.replyMux == Some(i) && s.alive
    ensures s.attempts[i].closureFrees <= 1
    ensures s.attempts[i].closureFrees == 1 ==> s.attempts[i].running == 0 && !CanCall(s.attempts[i])
  {
    hide Leads, Holders;
    RunInvariant(Initial(), steps, s);
    assert AttemptRight(s, i) && AttemptRight(s, j);
  }

  /** The closure of a subscription is deleted exactly at its completion; where no completion callback could be set,
      it is never deleted, since the callback can still run. */
  lemma ClosuresOfSubscriptions(steps: seq<Step>, s: State, i: nat)
    requires Leads(Initial(), steps, s) && i < |s.attempts| && s.attempts[i].subscribed
    ensures s.attempts[i].closureFrees == 1 <==> s.attempts[i].completed
    ensures !s.attempts[i].completionSet ==> s.attempts[i].closureFrees == 0 && !Usable(s.attempts[i])
  {
    hide Leads, Holders;
    RunInvariant(Initial(), steps, s);
    assert AttemptRight(s, i);
  }

  /** The use count of the replies of every attempt, also of one that failed, is the number of their holders: the field
      of the connection, the closure and the requests.  They are freed once, when there are no holders left, and never
      while a delivery can use them. */
  lemma RepliesAreCounted(steps: seq<Step>, s: State, i: nat)
    requires Leads(Initial(), steps, s) && i < |s.attempts|
    ensures var a := s.attempts[i];
            a.refs.uses == Bit(s.replyMux == Some(i)) + Bit(a.closureFrees == 0) +
                           |set r | r in s.requests && s.requests[r] == i| &&
            a.refs.frees == (if a.refs.uses == 0 then 1 else 0) && (CanCall(a) || a.running > 0 ==> a.refs.frees == 0)
  {
    hide Leads;
    RunInvariant(Initial(), steps, s);
    assert AttemptRight(s, i);
    assert Holders(s, i) == set r | r in s.requests && s.requests[r] == i;
  }

  // ---------- The references are those of the protocol ----------

  /** A state of the protocol with the references of an attempt; each request that holds its replies has a number. */
  ghost predicate Matches(s: State, i: nat, p: P.State, numbers: map<nat, nat>)
    requires i < |s.attempts|
  {
    P.Reachable(p) && p.refs == s.attempts[i].refs &&
    (forall r :: r in Holders(s, i) ==> r in numbers && numbers[r] in p.requests && p.requests[numbers[r]].Numbered?) &&
    (forall r, q :: r in Holders(s, i) && q in Holders(s, i) && r != q ==> numbers[r] != numbers[q])
  }

  ghost predicate Linked(s: State) {
    forall i: nat :: i < |s.attempts| && s.attempts[i].completionSet ==>
                       exists p: P.State, numbers: map<nat, nat> :: Matches(s, i, p, numbers)
  }

  lemma Unmoved(s: State, t: State, i: nat, p: P.State, numbers: map<nat, nat>)
    requires i < |s.attempts| && i < |t.attempts| && Matches(s, i, p, numbers)
    requires t.attempts[i].refs == s.attempts[i].refs && t.requests == s.requests
    ensures Matches(t, i, p, numbers)
  {
    hide P.Reachable;
    SameHolders(s, t);
  }

  lemma RequestBegins(s: State, t: State, r: nat, i: nat, p: P.State, numbers: map<nat, nat>)
    requires i < |s.attempts| && i < |t.attempts| && Matches(s, i, p, numbers) && p.alive
    requires t.attempts[i].refs == Copy(s.attempts[i].refs) && r !in s.requests && t.requests == s.requests[r := i]
    ensures Matches(t, i, P.Next(p, P.Begin), numbers[r := p.counter + 1])
  {
    hide P.Reachable;
    OneMoreHolder(s, r, i);
    SameHolders(s.(requests := s.requests[r := i]), t);
    P.ReachableOn(p, P.Begin);
    forall q | q in Holders(s, i) ensures numbers[q] <= p.counter {
      P.NumberOfRequest(p, numbers[q]);
    }
  }

  /** A request of the protocol that begins and ends without a wait. */
  lemma GivesUp(p: P.State, n: nat) returns (q: P.State)
    requires P.Reachable(p) && n in p.requests && p.requests[n].Numbered?
    ensures P.Reachable(q) && q.refs == Drop(p.refs) && n in q.requests
    ensures forall k :: k != n && k in p.requests ==> k in q.requests && q.requests[k] == p.requests[k]
  {
    hide P.Reachable;
    P.ReachableOn(p, P.CreateSlot(n));
    var u := P.Next(p, P.CreateSlot(n));
    P.ReachableOn(u, P.FailToPublish(n));
    var v := P.Next(u, P.FailToPublish(n));
    P.ReachableOn(v, P.Return(n));
    q := P.Next(v, P.Return(n));
  }

  lemma RequestReturns(s: State, t: State, r: nat, p: P.State, numbers: map<nat, nat>) returns (q: P.State)
    requires r in s.requests && t.requests == s.requests - {r}
    requires var i := s.requests[r];
             i < |s.attempts| && i < |t.attempts| && Matches(s, i, p, numbers) &&
             t.attempts[i].refs == Drop(s.attempts[i].refs)
    ensures Matches(t, s.requests[r], q, numbers)
  {
    hide P.Reachable, Drop;
    OneLessHolder(s, r);
    SameHolders(s.(requests := s.requests - {r}), t);
    assert r in Holders(s, s.requests[r]);
    assert forall q :: q in Holders(t, s.requests[r]) ==> q in Holders(s, s.requests[r]) && q != r;
    q := GivesUp(p, numbers[r]);
  }

  lemma HolderGone(s: State, t: State, i: nat, p: P.State, numbers: map<nat, nat>, step: P.Step)
    requires i < |s.attempts| && i < |t.attempts| && Matches(s, i, p, numbers) && P.Enabled(p, step)
    requires t.requests == s.requests
    requires (step == P.DropConnection && t.attempts[i].refs == DropByConnection(s.attempts[i].refs)) ||
             (step == P.CompleteSubscription && t.attempts[i].refs == DropByCallback(s.attempts[i].refs))
    ensures Matches(t, i, P.Next(p, step), numbers)
  {
    hide P.Reachable, DropByCallback, DropByConnection;
    SameHolders(s, t);
    P.ReachableOn(p, step);
  }

  /** The first request, whose call created the replies. */
  lemma FirstBegins(t: State, i: nat, r: nat, a: Answers)
    requires i < |t.attempts| && t.attempts[i] == TryToSubscribe(a) && a.subscribe && a.setCompletion
    requires Holders(t, i) == {r}
    ensures Matches(t, i, P.Next(P.Initial(""), P.Begin), map[r := 1])
  {
    hide P.Reachable;
    P.InitialReachable("");
    P.ReachableOn(P.Initial(""), P.Begin);
  }

  lemma MatchingReferences(s: State, i: nat, p: P.State, numbers: map<nat, nat>)
    requires i < |s.attempts| && Matches(s, i, p, numbers)
    ensures p.refs == s.attempts[i].refs
    ensures (p.refs.connection <==> p.alive) && (p.refs.callback <==> !p.completed)
  {
    hide P.Reachable;
    P.HoldersAre(p);
  }

  lemma OldLinked(s: State, step: Step, i: nat, p: P.State, numbers: map<nat, nat>)
    requires Invariant(s) && Enabled(s, step) && i < |s.attempts| && AttemptRight(s, i)
    requires s.attempts[i].completionSet && Matches(s, i, p, numbers)
    ensures i < |Next(s, step).attempts|
    ensures exists q: P.State, more: map<nat, nat> :: Matches(Next(s, step), i, q, more)
  {
    hide P.Reachable, P.Next, TryToSubscribe, Holders, AttemptRight, Matches;
    AttemptFacts(s, i);
    MatchingReferences(s, i, p, numbers);
    var t := Next(s, step);
    match step {
      case GetFor(a, r) => RequestBegins(s, t, r, i, p, numbers);
      case Return(r) => var q := RequestReturns(s, t, r, p, numbers);
      case Destruct => HolderGone(s, t, i, p, numbers, P.DropConnection);
      case Complete(j) =>
        if j == i {
          HolderGone(s, t, i, p, numbers, P.CompleteSubscription);
        } else {
          Unmoved(s, t, i, p, numbers);
        }
      case _ => Unmoved(s, t, i, p, numbers);
    }
  }

  lemma NewLinked(s: State, step: Step, i: nat)
    requires Invariant(s) && Enabled(s, step) && (i < |s.attempts| ==> !s.attempts[i].completionSet)
    requires i < |Next(s, step).attempts| && Next(s, step).attempts[i].completionSet
    ensures exists p: P.State, numbers: map<nat, nat> :: Matches(Next(s, step), i, p, numbers)
  {
    hide P.Reachable, P.Next, P.Enabled, P.Initial, TryToSubscribe, Holders, AttemptRight, Matches;
    NoHolders(s);
    var t := Next(s, step);
    assert step.GetFor? && i == |s.attempts|;
    Completed(step.answers);
    OneMoreHolder(s, step.r, i);
    SameHolders(s.(requests := s.requests[step.r := i]), t);
    FirstBegins(t, i, step.r, step.answers);
  }

  lemma LinkedStep(s: State, step: Step, i: nat)
    requires Invariant(s) && Linked(s) && Enabled(s, step)
    requires i < |Next(s, step).attempts| && Next(s, step).attempts[i].completionSet
    ensures exists p: P.State, numbers: map<nat, nat> :: Matches(Next(s, step), i, p, numbers)
  {
    hide P.Reachable, P.Next, P.Enabled, TryToSubscribe, Holders;
    var t := Next(s, step);
    if i < |s.attempts| && s.attempts[i].completionSet {
      var p: P.State, numbers: map<nat, nat> :| Matches(s, i, p, numbers);
      assert AttemptRight(s, i);
      OldLinked(s, step, i, p, numbers);
    } else {
      NewLinked(s, step, i);
    }
  }

  lemma {:induction false} LinkedRun(s: State, steps: seq<Step>, t: State)
    requires Invariant(s) && Linked(s) && Leads(s, steps, t)
    ensures Linked(t)
    decreases |steps|
  {
    hide Invariant, Next, Enabled, Matches;
    if steps == [] {
    } else {
      var u := Next(s, steps[0]);
      InvariantKept(s, steps[0]);
      forall i: nat | i < |u.attempts| && u.attempts[i].completionSet
        ensures exists p: P.State, numbers: map<nat, nat> :: Matches(u, i, p, numbers)
      {
        LinkedStep(s, steps[0], i);
      }
      LinkedRun(u, steps[1..], t);
    }
  }

  /** The references to the replies that a successful attempt created are, after every run, those of a reachable state
      of the protocol, with the same connection and the same completion; the closure exists while its callback can be
      called. */
  lemma ReferencesOfProtocol(steps: seq<Step>, s: State, i: nat)
    requires Leads(Initial(), steps, s) && i < |s.attempts| && s.attempts[i].completionSet
    ensures exists p :: P.Reachable(p) && p.refs == s.attempts[i].refs && p.alive == s.alive &&
                        p.completed == s.attempts[i].completed
    ensures s.attempts[i].refs.callback <==> CanCall(s.attempts[i])
  {
    hide Leads, Holders, P.Reachable;
    RunInvariant(Initial(), steps, s);
    LinkedRun(Initial(), steps, s);
    assert AttemptRight(s, i);
    var p: P.State, numbers: map<nat, nat> :| Matches(s, i, p, numbers);
    MatchingReferences(s, i, p, numbers);
  }
}
