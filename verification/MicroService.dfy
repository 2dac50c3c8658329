/** The handler contexts of a microservice: who may use them, and who releases them.

    Threads add endpoints (in the constructor, through the service or through a group) and then register their contexts
    for release; the C client runs requests on the contexts and reports the end of the service once.
*/
module MicroService {

  type Context = nat

  // ---------- One context ----------

  /** What the release of a context does outside the module. */
  datatype Effect = DropHandler | DropProgram | Delete

  /** The endpoint callback context, with its references to a handler and to the handler's Program. */
  class EndpointContext {
    var handler: bool
    var pgm: bool

    constructor ()
      ensures handler && pgm
    {
      handler, pgm := true, true;
    }

    method Cleanup() returns (effects: seq<Effect>)
      modifies this
      ensures !handler && !pgm
      ensures effects == (if old(handler) then [DropHandler] else []) + (if old(pgm) then [DropProgram] else [])
    {
      effects := [];
      if handler {
        effects := effects + [DropHandler];
        handler := false;
      }
      if pgm {
        effects := effects + [DropProgram];
        pgm := false;
      }
    }
  }

  /** What the release of a context drops, in order: the handler goes while its Program is still there. */
  function ReleaseEffects(handler: bool, pgm: bool): seq<Effect> {
    (if handler then [DropHandler] else []) + (if pgm then [DropProgram] else []) + [Delete]
  }

  function Times(effects: seq<Effect>, e: Effect): nat {
    multiset(effects)[e]
  }

  /** Every reference that a context holds is dropped once, the Program after the handler, and the context is deleted
      once, at the end. */
  predicate DropsEach(effects: seq<Effect>, handler: bool, pgm: bool) {
    Times(effects, DropHandler) == (if handler then 1 else 0) &&
    Times(effects, DropProgram) == (if pgm then 1 else 0) &&
    Times(effects, Delete) == 1 && effects != [] && effects[|effects| - 1] == Delete &&
    forall i, j :: 0 <= i < |effects| && 0 <= j < |effects| && effects[i].DropHandler? && effects[j].DropProgram? ==> i < j
  }

  lemma EffectCounts(handler: bool, pgm: bool)
    ensures var effects := ReleaseEffects(handler, pgm);
            Times(effects, DropHandler) == (if handler then 1 else 0) &&
            Times(effects, DropProgram) == (if pgm then 1 else 0) && Times(effects, Delete) == 1
  {
  }

  lemma ReleasedInOrder(handler: bool, pgm: bool)
    ensures DropsEach(ReleaseEffects(handler, pgm), handler, pgm)
  {
    hide Times;
    EffectCounts(handler, pgm);
    var effects := ReleaseEffects(handler, pgm);
    if handler && pgm {
      assert effects == [DropHandler, DropProgram, Delete];
    } else if handler {
      assert effects == [DropHandler, Delete];
    } else if pgm {
      assert effects == [DropProgram, Delete];
    } else {
      assert effects == [Delete];
    }
  }

  /** The loop over the contexts to release, in the order of the list. */
  method ReleaseHandlers(handlers: seq<EndpointContext>) returns (effects: seq<seq<Effect>>)
    requires forall i, j :: 0 <= i < j < |handlers| ==> handlers[i] != handlers[j]
    modifies set c | c in handlers
    ensures |effects| == |handlers|
    ensures forall i :: 0 <= i < |handlers| ==>
                          !handlers[i].handler && !handlers[i].pgm &&
                          DropsEach(effects[i], old(handlers[i].handler), old(handlers[i].pgm))
  {
    hide DropsEach;
    effects := [];
    for k := 0 to |handlers|
      invariant |effects| == k
      invariant forall i :: 0 <= i < k ==>
                              !handlers[i].handler && !handlers[i].pgm &&
                              DropsEach(effects[i], old(handlers[i].handler), old(handlers[i].pgm))
      invariant forall i :: k <= i < |handlers| ==>
                              handlers[i].handler == old(handlers[i].handler) && handlers[i].pgm == old(handlers[i].pgm)
    {
      var ctx := handlers[k];
      var dropped: seq<Effect> := [];
      if ctx.pgm {
        if ctx.handler {
          dropped := dropped + [DropHandler];
          ctx.handler := false;
        }
      }
      var rest := ctx.Cleanup();
      ReleasedInOrder(old(ctx.handler), old(ctx.pgm));
      assert dropped + rest + [Delete] == ReleaseEffects(old(ctx.handler), old(ctx.pgm));
      effects := effects + [dropped + rest + [Delete]];
    }
  }

  // ---------- The shared state ----------

  /** The contexts to release at the end of the service, and whether that end was reported. */
  datatype Shared = Shared(handlers: seq<Context>, done: bool)

  /** A context is kept for the end of the service, or released at once if that was already reported. */
  function Register(s: Shared, c: Context): (Shared, seq<Context>) {
    if !s.done then (s.(handlers := s.handlers + [c]), []) else (s, [c])
  }

  function Finish(s: Shared): (Shared, seq<Context>) {
    (Shared([], true), s.handlers)
  }

  class MicroServiceState {
    var handlers: seq<Context>
    var done: bool

    constructor ()
      ensures View() == Shared([], false)
    {
      handlers, done := [], false;
    }

    ghost function View(): Shared
      reads this
    {
      Shared(handlers, done)
    }

    /** The contexts that the caller has to release. */
    method RegisterHandler(c: Context) returns (release: seq<Context>)
      modifies this
      ensures (View(), release) == Register(old(View()), c)
    {
      if !done {
        handlers := handlers + [c];
        return [];
      }
      release := [c];
    }

    /** The contexts that the done handler has to release. */
    method ServiceDone() returns (release: seq<Context>)
      modifies this
      ensures (View(), release) == Finish(old(View()))
    {
      release := [];
      done := true;
      release, handlers := handlers, release;
    }
  }

  // ---------- The protocol ----------

  /** Where a context is: with the thread that creates it, added to the service but not yet registered, with a thread
      that has to release it (one that registered too late, or whose endpoint was refused), in the list of the service,
      with the done handler, or released. */
  datatype Stage = Created | Added | ToRelease | Listed | WithDone | Released

  /** The service in the C client: it serves requests, its endpoints are complete, or it has called its done handler. */
  datatype Client = Serving | Complete | Reported

  /** Of the C client: the endpoints that it accepted, known by their contexts, and the requests that run, each on the
      context of its endpoint.  It knows nothing of the stages. */
  datatype State = State(
    shared: Shared,
    stages: seq<Stage>,
    releases: multiset<Context>,
    client: Client,
    accepted: set<Context>,
    running: map<nat, Context>,
    doneLeft: seq<Context>)

  datatype Step =
    | Create
    | Accept(c: Context)
    | Refuse(c: Context)
    | RegisterContext(c: Context)
    | ReleaseOwn(c: Context)
    | StartRequest(r: nat, c: Context)
    | EndRequest(r: nat)
    | CompleteEndpoints
    | Done
    | ReleaseNext

  function Initial(): State {
    State(Shared([], false), [], multiset{}, Serving, {}, map[], [])
  }

  predicate Is(s: State, c: Context, stage: Stage) {
    c < |s.stages| && s.stages[c] == stage
  }

  /** The C client runs requests on every endpoint that it accepted, until the endpoints are complete, which they are
      when no request runs; it accepts no endpoint afterwards, and then calls the done handler once.  The other guards
      say how far the thread is that creates a context or the done handler. */
  predicate Enabled(s: State, step: Step) {
    match step
    case Create => true
    case Accept(c) => Is(s, c, Created) && s.client.Serving?
    case Refuse(c) => Is(s, c, Created)
    case RegisterContext(c) => Is(s, c, Added)
    case ReleaseOwn(c) => Is(s, c, ToRelease)
    case StartRequest(r, c) => r !in s.running && c in s.accepted && s.client.Serving?
    case EndRequest(r) => r in s.running
    case CompleteEndpoints => s.client.Serving? && s.running == map[]
    case Done => s.client.Complete?
    case ReleaseNext => s.doneLeft != []
  }

  function Move(s: State, c: Context, stage: Stage): State
    requires c < |s.stages|
  {
    s.(stages := s.stages[c := stage])
  }

  function ReleaseContext(s: State, c: Context): State
    requires c < |s.stages|
  {
    Move(s, c, Released).(releases := s.releases + multiset{c})
  }

  /** All contexts of a list go to the done handler. */
  function MoveAll(stages: seq<Stage>, list: seq<Context>): (r: seq<Stage>)
    ensures |r| == |stages|
  {
    seq(|stages|, c requires 0 <= c < |stages| => if c in list then WithDone else stages[c])
  }

  function Next(s: State, step: Step): State
    requires Enabled(s, step)
  {
    match step
    case Create => s.(stages := s.stages + [Created])
    case Accept(c) => Move(s.(accepted := s.accepted + {c}), c, Added)
    case Refuse(c) => Move(s, c, ToRelease)
    case RegisterContext(c) =>
      var (shared, release) := Register(s.shared, c);
      Move(s.(shared := shared), c, if release == [] then Listed else ToRelease)
    case ReleaseOwn(c) => ReleaseContext(s, c)
    case StartRequest(r, c) => s.(running := s.running[r := c])
    case EndRequest(r) => s.(running := s.running - {r})
    case CompleteEndpoints => s.(client := Complete)
    case Done =>
      var (shared, release) := Finish(s.shared);
      s.(client := Reported, shared := shared, doneLeft := release, stages := MoveAll(s.stages, release))
    case ReleaseNext =>
      var c := s.doneLeft[0];
      var t := s.(doneLeft := s.doneLeft[1..]);
      if c < |s.stages| then ReleaseContext(t, c) else t
  }

  predicate NoDuplicates(list: seq<Context>) {
    forall i, j :: 0 <= i < j < |list| ==> list[i] != list[j]
  }

  /** The list holds exactly the contexts of a stage, each once. */
  ghost predicate Holds(s: State, list: seq<Context>, stage: Stage) {
    NoDuplicates(list) && forall c :: c in list <==> Is(s, c, stage)
  }

  /** A context was released once if it is in the last stage, and never otherwise. */
  ghost predicate ReleasesRight(s: State) {
    forall c: nat :: s.releases[c] == if Is(s, c, Released) then 1 else 0
  }

  /** While the C client can run a request on a context, nobody releases it. */
  ghost predicate AcceptedRight(s: State) {
    (s.client.Serving? ==> forall c :: c in s.accepted ==> Is(s, c, Added) || Is(s, c, Listed)) &&
    (forall r :: r in s.running ==> s.client.Serving? && s.running[r] in s.accepted)
  }

  ghost predicate Invariant(s: State) {
    Holds(s, s.shared.handlers, Listed) && Holds(s, s.doneLeft, WithDone) && ReleasesRight(s) && AcceptedRight(s) &&
    (s.shared.done <==> s.client.Reported?) &&
    (s.shared.done ==> s.shared.handlers == []) && (!s.shared.done ==> s.doneLeft == [])
  }

  lemma HoldsElsewhere(s: State, t: State, list: seq<Context>, stage: Stage)
    requires Holds(s, list, stage) && |t.stages| >= |s.stages|
    requires forall c: nat :: c < |s.stages| ==> (t.stages[c] == stage <==> s.stages[c] == stage)
    requires forall c: nat :: |s.stages| <= c < |t.stages| ==> t.stages[c] != stage
    ensures Holds(t, list, stage)
  {
  }

  lemma Moving(s: State, c: Context, from: Stage, stage: Stage)
    requires Invariant(s) && Is(s, c, from)
    requires from != Released && from != Listed && from != WithDone
    requires stage == Added || stage == ToRelease
    requires stage == ToRelease ==> c !in s.accepted || !s.client.Serving?
    ensures Invariant(Move(s, c, stage))
  {
    HoldsElsewhere(s, Move(s, c, stage), s.shared.handlers, Listed);
    HoldsElsewhere(s, Move(s, c, stage), s.doneLeft, WithDone);
  }

  lemma Accepting(s: State, c: Context)
    requires Invariant(s) && Enabled(s, Accept(c))
    ensures Invariant(Next(s, Accept(c)))
  {
    Moving(s, c, Created, Added);
    assert Next(s, Accept(c)) == Move(s, c, Added).(accepted := s.accepted + {c});
  }

  lemma Listing(s: State, c: Context)
    requires Invariant(s) && Is(s, c, Added) && !s.shared.done
    ensures Invariant(Next(s, RegisterContext(c)))
  {
    var t := Next(s, RegisterContext(c));
    HoldsElsewhere(s, t, s.doneLeft, WithDone);
    assert c !in s.shared.handlers;
    assert NoDuplicates(s.shared.handlers + [c]);
    forall d ensures d in t.shared.handlers <==> Is(t, d, Listed) {
      assert d in s.shared.handlers <==> Is(s, d, Listed);
    }
  }

  lemma OwnRelease(s: State, c: Context)
    requires Invariant(s) && Is(s, c, ToRelease)
    ensures Invariant(ReleaseContext(s, c))
  {
    HoldsElsewhere(s, ReleaseContext(s, c), s.shared.handlers, Listed);
    HoldsElsewhere(s, ReleaseContext(s, c), s.doneLeft, WithDone);
  }

  lemma Finishing(s: State)
    requires Invariant(s) && Enabled(s, Done)
    ensures Invariant(Next(s, Done))
  {
    var t := Next(s, Done);
    forall c ensures c in t.doneLeft <==> Is(t, c, WithDone) {
      assert c in s.shared.handlers <==> Is(s, c, Listed);
      assert c in s.doneLeft <==> Is(s, c, WithDone);
    }
    forall c ensures c in t.shared.handlers <==> Is(t, c, Listed) {
      assert c in s.shared.handlers <==> Is(s, c, Listed);
    }
    forall c: nat ensures Is(t, c, Released) == Is(s, c, Released) {
      assert c in s.shared.handlers <==> Is(s, c, Listed);
    }
  }

  lemma DoneRelease(s: State)
    requires Invariant(s) && s.doneLeft != []
    ensures Invariant(Next(s, ReleaseNext))
  {
    var t := Next(s, ReleaseNext);
    var c := s.doneLeft[0];
    assert c in s.doneLeft && Is(s, c, WithDone);
    HoldsElsewhere(s, t, s.shared.handlers, Listed);
    assert NoDuplicates(t.doneLeft);
    forall d ensures d in t.doneLeft <==> Is(t, d, WithDone) {
      assert d in s.doneLeft <==> Is(s, d, WithDone);
      assert s.doneLeft == [c] + t.doneLeft;
    }
  }

  lemma Creating(s: State)
    requires Invariant(s)
    ensures Invariant(Next(s, Create))
  {
    HoldsElsewhere(s, Next(s, Create), s.shared.handlers, Listed);
    HoldsElsewhere(s, Next(s, Create), s.doneLeft, WithDone);
  }

  lemma InvariantKept(s: State, step: Step)
    requires Invariant(s) && Enabled(s, step)
    ensures Invariant(Next(s, step))
  {
    match step {
      case Create => Creating(s);
      case Accept(c) => Accepting(s, c);
      case Refuse(c) => Moving(s, c, Created, ToRelease);
      case RegisterContext(c) =>
        if s.shared.done {
          Moving(s, c, Added, ToRelease);
        } else {
          Listing(s, c);
        }
      case ReleaseOwn(c) => OwnRelease(s, c);
      case StartRequest(_, _) =>
      case EndRequest(_) =>
      case CompleteEndpoints =>
      case Done => Finishing(s);
      case ReleaseNext => DoneRelease(s);
    }
  }

  ghost predicate Leads(s: State, steps: seq<Step>, t: State)
    decreases |steps|
  {
    if steps == [] then t == s else Enabled(s, steps[0]) && Leads(Next(s, steps[0]), steps[1..], t)
  }

  ghost predicate Reachable(s: State) {
    exists steps: seq<Step> :: Leads(Initial(), steps, s)
  }

  lemma {:induction false} RunInvariant(s: State, steps: seq<Step>, t: State)
    requires Invariant(s) && Leads(s, steps, t)
    ensures Invariant(t)
    decreases |steps|
  {
    hide Invariant, Enabled, Next;
    if steps == [] {
    } else {
      InvariantKept(s, steps[0]);
      RunInvariant(Next(s, steps[0]), steps[1..], t);
    }
  }

  lemma ReachableInvariant(s: State)
    requires Reachable(s)
    ensures Invariant(s)
  {
    hide Leads;
    var steps: seq<Step> :| Leads(Initial(), steps, s);
    RunInvariant(Initial(), steps, s);
  }

  // ---------- What holds in every interleaving ----------

  /** No request runs or can start on a context that was released or that a thread is about to release. */
  lemma NoUseAfterRelease(s: State, r: nat, c: Context)
    requires Reachable(s) && ((r in s.running && s.running[r] == c) || Enabled(s, StartRequest(r, c)))
    ensures c < |s.stages| && s.releases[c] == 0
    ensures c !in s.doneLeft && !Is(s, c, ToRelease)
  {
    hide Reachable;
    ReachableInvariant(s);
  }

  /** No context is released twice. */
  lemma ReleasedAtMostOnce(s: State, c: Context)
    requires Reachable(s)
    ensures s.releases[c] <= 1
    ensures s.releases[c] == 1 <==> Is(s, c, Released)
  {
    hide Reachable;
    ReachableInvariant(s);
  }

  /** When the service is done, the done handler is through and no thread is still adding or releasing a context,
      every context was released, whether or not its endpoint was accepted. */
  lemma AllReleased(s: State, c: Context)
    requires Reachable(s) && c < |s.stages|
    requires s.shared.done && s.doneLeft == []
    requires forall d: nat :: d < |s.stages| ==> s.stages[d] != Created && s.stages[d] != Added && s.stages[d] != ToRelease
    ensures s.releases[c] == 1
  {
    hide Reachable;
    ReachableInvariant(s);
    assert c in s.shared.handlers <==> Is(s, c, Listed);
    assert c in s.doneLeft <==> Is(s, c, WithDone);
  }

  lemma {:induction false} DoneAndEmpty(s: State, steps: seq<Step>, t: State)
    requires s.shared == Shared([], true) && Leads(s, steps, t)
    ensures t.shared == Shared([], true)
    decreases |steps|
  {
    if steps == [] {
    } else {
      DoneAndEmpty(Next(s, steps[0]), steps[1..], t);
    }
  }

  /** Once the service is done, the list stays empty, whatever is still registered. */
  lemma ListStaysEmpty(s: State, steps: seq<Step>, t: State)
    requires Reachable(s) && s.shared.done && Leads(s, steps, t)
    ensures t.shared == Shared([], true)
  {
    hide Reachable;
    ReachableInvariant(s);
    DoneAndEmpty(s, steps, t);
  }
}
