/** The callback context of a connection: a reference count shared by the connection object and the closed callback,
    whose last holder releases the closures and the Program. */
module CallbackContext {
  /** A closure is known by its callback. */
  datatype Closure = Disconnect | Reconnect | Closed | Failure | LameDuck | DiscoveredServers

  /** What the last release does outside the module. */
  datatype Effect = DropClosure(c: Closure) | DropProgram | Delete

  /** Which references a context holds: to the closures that were given, and to the Program. */
  datatype Fields = Fields(onDisconnect: bool, onReconnect: bool, onClosed: bool, onError: bool, onLameDuck: bool,
                           onDiscoveredServers: bool, pgm: bool)

  const NOTHING := Fields(false, false, false, false, false, false, false)

  function Given(f: Fields, c: Closure): bool {
    match c
    case Disconnect => f.onDisconnect
    case Reconnect => f.onReconnect
    case Closed => f.onClosed
    case Failure => f.onError
    case LameDuck => f.onLameDuck
    case DiscoveredServers => f.onDiscoveredServers
  }

  function If(condition: bool, e: Effect): seq<Effect> {
    if condition then [e] else []
  }

  /** The effects of dropping every reference, after some earlier effects. */
  function AfterCleanup(effects: seq<Effect>, f: Fields): seq<Effect> {
    effects + If(f.onDisconnect, DropClosure(Disconnect)) + If(f.onReconnect, DropClosure(Reconnect))
    + If(f.onClosed, DropClosure(Closed)) + If(f.onError, DropClosure(Failure))
    + If(f.onLameDuck, DropClosure(LameDuck)) + If(f.onDiscoveredServers, DropClosure(DiscoveredServers))
    + If(f.pgm, DropProgram)
  }

  /** The last release: the closures go first, in their Program; then the Program goes, then the context. */
  function AfterRelease(effects: seq<Effect>, f: Fields): seq<Effect> {
    AfterCleanup(effects, f.(pgm := false)) + If(f.pgm, DropProgram) + [Delete]
  }

  class Context {
    var onDisconnect: bool
    var onReconnect: bool
    var onClosed: bool
    var onError: bool
    var onLameDuck: bool
    var onDiscoveredServers: bool
    var pgm: bool
    var refs: nat
    //! what was released outside the module
    ghost var effects: seq<Effect>

    constructor (pgm: bool)
      ensures View() == NOTHING.(pgm := pgm) && refs == 1 && effects == []
    {
      onDisconnect, onReconnect, onClosed, onError, onLameDuck, onDiscoveredServers := false, false, false, false, false, false;
      this.pgm := pgm;
      refs := 1;
      effects := [];
    }

    ghost function View(): Fields
      reads this
    {
      Fields(onDisconnect, onReconnect, onClosed, onError, onLameDuck, onDiscoveredServers, pgm)
    }

    method AddReference()
      modifies this`refs
      ensures refs == old(refs) + 1
    {
      refs := refs + 1;
    }

    /** Drops the reference in a field, if there is one. */
    method Drop(field: bool, e: Effect) returns (none: bool)
      modifies this`effects
      ensures !none && effects == old(effects) + If(field, e)
    {
      if field {
        effects := effects + [e];
      }
      none := false;
    }

    method Cleanup()
      modifies this
      ensures View() == NOTHING && refs == old(refs)
      ensures effects == AfterCleanup(old(effects), old(View()))
    {
      hide If;
      onDisconnect := Drop(onDisconnect, DropClosure(Disconnect));
      onReconnect := Drop(onReconnect, DropClosure(Reconnect));
      onClosed := Drop(onClosed, DropClosure(Closed));
      onError := Drop(onError, DropClosure(Failure));
      onLameDuck := Drop(onLameDuck, DropClosure(LameDuck));
      onDiscoveredServers := Drop(onDiscoveredServers, DropClosure(DiscoveredServers));
      pgm := Drop(pgm, DropProgram);
    }

    /** Gives a reference back; the last one releases everything and deletes the context. */
    method Release() returns (deleted: bool)
      requires refs > 0
      modifies this
      ensures refs == old(refs) - 1 && deleted == (old(refs) == 1)
      ensures deleted ==> View() == NOTHING && effects == AfterRelease(old(effects), old(View()))
      ensures !deleted ==> View() == old(View()) && effects == old(effects)
    {
      hide If, AfterCleanup;
      var prev := refs;
      refs := refs - 1;
      if prev > 1 {
        return false;
      }
      // the Program is set aside while the closures are released
      var p := pgm;
      pgm := false;
      Cleanup();
      pgm := p;
      pgm := Drop(pgm, DropProgram);
      effects := effects + [Delete];
      return true;
    }
  }

  // ---------- What the last release does ----------

  function Count(effects: seq<Effect>, e: Effect): nat {
    multiset(effects)[e]
  }

  lemma CountIf(effects: seq<Effect>, condition: bool, f: Effect, e: Effect)
    ensures Count(effects + If(condition, f), e) == Count(effects, e) + if condition && e == f then 1 else 0
  {
  }

  lemma CountNone(e: Effect)
    ensures Count([], e) == 0
  {
  }

  /** Each closure that was given is dropped once, and no other. */
  lemma CleanupCounts(f: Fields, e: Effect)
    requires !f.pgm
    ensures Count(AfterCleanup([], f), e) == if e.DropClosure? && Given(f, e.c) then 1 else 0
  {
    hide If, Count;
    var s0: seq<Effect> := [];
    var s1 := s0 + If(f.onDisconnect, DropClosure(Disconnect));
    var s2 := s1 + If(f.onReconnect, DropClosure(Reconnect));
    var s3 := s2 + If(f.onClosed, DropClosure(Closed));
    var s4 := s3 + If(f.onError, DropClosure(Failure));
    var s5 := s4 + If(f.onLameDuck, DropClosure(LameDuck));
    var s6 := s5 + If(f.onDiscoveredServers, DropClosure(DiscoveredServers));
    CountIf(s0, f.onDisconnect, DropClosure(Disconnect), e);
    CountIf(s1, f.onReconnect, DropClosure(Reconnect), e);
    CountIf(s2, f.onClosed, DropClosure(Closed), e);
    CountIf(s3, f.onError, DropClosure(Failure), e);
    CountIf(s4, f.onLameDuck, DropClosure(LameDuck), e);
    CountIf(s5, f.onDiscoveredServers, DropClosure(DiscoveredServers), e);
    CountIf(s6, f.pgm, DropProgram, e);
    CountNone(e);
    assert AfterCleanup([], f) == s6 + If(f.pgm, DropProgram);
    if e.DropClosure? {
      match e.c {
        case Disconnect => assert Count(s1, e) == Count(s6, e);
        case Reconnect => assert Count(s1, e) == 0 && Count(s2, e) == Count(s6, e);
        case Closed => assert Count(s2, e) == 0 && Count(s3, e) == Count(s6, e);
        case Failure => assert Count(s3, e) == 0 && Count(s4, e) == Count(s6, e);
        case LameDuck => assert Count(s4, e) == 0 && Count(s5, e) == Count(s6, e);
        case DiscoveredServers => assert Count(s5, e) == 0;
      }
    } else {
      assert Count(s6, e) == 0;
    }
  }

  /** Whatever the fields hold when the last reference goes, every reference in them is dropped once: the closures,
      then the Program, then the context itself is deleted. */
  lemma ReleasedOnceProgramLast(f: Fields)
    ensures var effects := AfterRelease([], f); var closures := AfterCleanup([], f.(pgm := false));
            effects == closures + If(f.pgm, DropProgram) + [Delete] &&
            (forall c :: Count(closures, DropClosure(c)) == if Given(f, c) then 1 else 0) &&
            Count(closures, DropProgram) == 0 && Count(closures, Delete) == 0
  {
    hide AfterCleanup, Count;
    var g := f.(pgm := false);
    forall c ensures Count(AfterCleanup([], g), DropClosure(c)) == if Given(f, c) then 1 else 0 {
      CleanupCounts(g, DropClosure(c));
    }
    CleanupCounts(g, DropProgram);
    CleanupCounts(g, Delete);
  }

  // ---------- The protocol ----------

  datatype Phase = SettingUp | Connecting | Connected | NotConnected

  /** Of the code: the count, and whether the references of the connection object and of the closed callback have been
      given back.  Of the C client: the callbacks that run, and whether the closed callback runs or has returned. */
  datatype State = State(phase: Phase, fields: Fields, refs: nat, alive: bool, closedRef: bool, running: nat,
                         closing: bool, closed: bool, effects: seq<Effect>)

  datatype Step =
    | SetClosure(c: Closure)
    | SetupFails
    | Connect
    | ConnectionFails
    | ConnectionMade
    | CallbackStarts
    | CallbackEnds
    | ClosedStarts
    | ClosedEnds
    | Destruct

  function Initial(pgm: bool): State {
    State(SettingUp, NOTHING.(pgm := pgm), 1, true, false, 0, false, false, [])
  }

  function Give(f: Fields, c: Closure): Fields {
    match c
    case Disconnect => f.(onDisconnect := true)
    case Reconnect => f.(onReconnect := true)
    case Closed => f.(onClosed := true)
    case Failure => f.(onError := true)
    case LameDuck => f.(onLameDuck := true)
    case DiscoveredServers => f.(onDiscoveredServers := true)
  }

  /** The C client can still call back: the connection was started, and its closed callback has not come. */
  predicate CanCallBack(s: State) {
    (s.phase == Connecting || s.phase == Connected) && !s.closing && !s.closed
  }

  /** The callbacks of a connection run between its start and its closed callback, which is the last one and comes
      once; if no connection is made, it does not come, and no other callback is left running.  The C client knows
      nothing of the references. */
  predicate Enabled(s: State, step: Step) {
    match step
    case SetClosure(_) => s.phase == SettingUp && s.alive
    case SetupFails => s.phase == SettingUp && s.alive
    case Connect => s.phase == SettingUp && s.alive
    case ConnectionFails => s.phase == Connecting && s.running == 0 && !s.closing && !s.closed
    case ConnectionMade => s.phase == Connecting
    case CallbackStarts => CanCallBack(s)
    case CallbackEnds => s.running > 0
    case ClosedStarts => CanCallBack(s) && s.running == 0
    case ClosedEnds => s.closing
    case Destruct => s.alive && (s.phase == Connected || s.phase == NotConnected)
  }

  /** One reference less; the last one releases the context. */
  function ReleaseRef(s: State): State {
    if s.refs == 1 then s.(refs := 0, fields := NOTHING, effects := AfterRelease(s.effects, s.fields))
    else if s.refs == 0 then s
    else s.(refs := s.refs - 1)
  }

  function Next(s: State, step: Step): State
    requires Enabled(s, step)
  {
    match step
    case SetClosure(c) => s.(fields := Give(s.fields, c))
    case SetupFails => s.(phase := NotConnected)
    case Connect => s.(phase := Connecting, refs := s.refs + 1, closedRef := true)
    case ConnectionFails => ReleaseRef(s.(phase := NotConnected, closedRef := false))
    case ConnectionMade => s.(phase := Connected)
    case CallbackStarts => s.(running := s.running + 1)
    case CallbackEnds => s.(running := s.running - 1)
    case ClosedStarts => s.(closing := true)
    case ClosedEnds => ReleaseRef(s.(closing := false, closed := true, closedRef := false))
    case Destruct => ReleaseRef(s.(alive := false))
  }

  predicate Invariant(s: State) {
    s.refs == (if s.alive then 1 else 0) + (if s.closedRef then 1 else 0) &&
    (s.phase == Connecting || s.phase == Connected ==> (s.closedRef <==> !s.closed)) &&
    (s.phase == SettingUp ==> s.alive && !s.closedRef && !s.closed) && (s.phase == Connecting ==> s.alive) &&
    (s.phase == NotConnected ==> !s.closedRef) &&
    (s.running > 0 || s.closing ==> !s.closed && (s.phase == Connecting || s.phase == Connected)) &&
    (s.running == 0 || !s.closing) && (s.refs > 0 ==> s.effects == [])
  }

  lemma InvariantKept(s: State, step: Step)
    requires Invariant(s) && Enabled(s, step)
    ensures Invariant(Next(s, step))
  {
    hide AfterRelease, Give;
  }

  ghost predicate Leads(s: State, steps: seq<Step>, t: State)
    decreases |steps|
  {
    if steps == [] then t == s else Enabled(s, steps[0]) && Leads(Next(s, steps[0]), steps[1..], t)
  }

  ghost predicate Reachable(s: State) {
    exists pgm: bool, steps: seq<Step> :: Leads(Initial(pgm), steps, s)
  }

  lemma {:induction false} RunInvariant(s: State, steps: seq<Step>, t: State)
    requires Invariant(s) && Leads(s, steps, t)
    ensures Invariant(t)
    decreases |steps|
  {
    hide Invariant, Enabled, Next;
    if steps == [] {
    } else {
      InvariantKept(s, steps[0]);
      RunInvariant(Next(s, steps[0]), steps[1..], t);
    }
  }

  lemma ReachableInvariant(s: State)
    requires Reachable(s)
    ensures Invariant(s)
  {
    hide Leads;
    var pgm: bool, steps: seq<Step> :| Leads(Initial(pgm), steps, s);
    RunInvariant(Initial(pgm), steps, s);
  }

  /** In every order of failures, callbacks and destruction, the references are those of the living connection object
      and of the closed callback while the C client can still call back; no callback runs or can start on a context
      without references, and nothing is released before. */
  lemma ReferencesAreHolders(s: State)
    requires Reachable(s)
    ensures s.refs == (if s.alive then 1 else 0) + (if CanCallBack(s) || s.closing then 1 else 0)
    ensures s.running > 0 ==> CanCallBack(s)
    ensures s.refs > 0 ==> s.effects == []
    ensures s.refs == 0 ==> forall step :: !Enabled(s, step)
  {
    hide Reachable;
    ReachableInvariant(s);
  }

  /** The closures that the steps of a run give to the context. */
  function GivenBy(f: Fields, steps: seq<Step>): Fields
    decreases |steps|
  {
    if steps == [] then f
    else GivenBy(if steps[0].SetClosure? then Give(f, steps[0].c) else f, steps[1..])
  }

  lemma GiveOne(f: Fields, d: Closure, c: Closure)
    ensures Given(Give(f, d), c) <==> Given(f, c) || c == d
    ensures Give(f, d).pgm == f.pgm
  {
  }

  lemma {:induction false} GivenExactly(f: Fields, steps: seq<Step>, c: Closure)
    ensures Given(GivenBy(f, steps), c) <==> Given(f, c) || SetClosure(c) in steps
    ensures GivenBy(f, steps).pgm == f.pgm
    decreases |steps|
  {
    hide Give, Given;
    if steps == [] {
    } else {
      if steps[0].SetClosure? {
        GiveOne(f, steps[0].c, c);
      }
      GivenExactly(if steps[0].SetClosure? then Give(f, steps[0].c) else f, steps[1..], c);
      assert steps == [steps[0]] + steps[1..];
    }
  }

  /** Without a reference nothing is left to happen: the context is not used and not released again. */
  lemma NoStepWithoutReference(s: State)
    requires Invariant(s) && s.refs == 0
    ensures forall step :: !Enabled(s, step)
  {
  }

  lemma NothingFollows(s: State, steps: seq<Step>, t: State)
    requires Invariant(s) && s.refs == 0 && Leads(s, steps, t)
    ensures steps == [] && t == s
  {
    NoStepWithoutReference(s);
  }

  lemma {:induction false} LastReference(s: State, steps: seq<Step>, t: State)
    requires Invariant(s) && s.refs > 0 && Leads(s, steps, t) && t.refs == 0
    ensures t.effects == AfterRelease([], GivenBy(s.fields, steps))
    decreases |steps|
  {
    hide AfterRelease, Give;
    InvariantKept(s, steps[0]);
    var u := Next(s, steps[0]);
    if u.refs > 0 {
      LastReference(u, steps[1..], t);
    } else {
      assert u.effects == AfterRelease([], s.fields);
      NothingFollows(u, steps[1..], t);
    }
  }

  lemma IfTrue(e: Effect)
    ensures If(true, e) == [e]
  {
  }

  lemma CountLast(effects: seq<Effect>, pgm: bool, e: Effect)
    ensures Count(effects + If(pgm, DropProgram) + [Delete], e) ==
            Count(effects, e) + (if e == DropProgram && pgm then 1 else 0) + (if e == Delete then 1 else 0)
  {
    hide If;
    CountIf(effects, pgm, DropProgram, e);
    CountIf(effects + If(pgm, DropProgram), true, Delete, e);
    IfTrue(Delete);
  }

  /** A context that lost its last reference was released once: each closure that its setup gave it was dropped once,
      and no other, then its Program, and it was deleted once, wherever the setup or the connection failed. */
  lemma ReleasedOnce(pgm: bool, steps: seq<Step>, t: State, c: Closure)
    requires Leads(Initial(pgm), steps, t) && t.refs == 0
    ensures t.effects == AfterRelease([], GivenBy(NOTHING.(pgm := pgm), steps))
    ensures Count(t.effects, DropClosure(c)) == if SetClosure(c) in steps then 1 else 0
    ensures Count(t.effects, DropProgram) == if pgm then 1 else 0
    ensures Count(t.effects, Delete) == 1
  {
    hide AfterCleanup, Leads, Count;
    LastReference(Initial(pgm), steps, t);
    var f := GivenBy(NOTHING.(pgm := pgm), steps);
    GivenExactly(NOTHING.(pgm := pgm), steps, c);
    ReleasedOnceProgramLast(f);
    var closures := AfterCleanup([], f.(pgm := false));
    CountLast(closures, f.pgm, DropClosure(c));
    CountLast(closures, f.pgm, DropProgram);
    CountLast(closures, f.pgm, Delete);
  }
}
