/** The references that keep a microservice: the script's own, and one for each group and sub-group. */
module MicroGroups {

  /** The reference count of the service object, whose destructor stops the service. */
  datatype Count = Count(refs: nat, destructions: nat)

  function Ref(c: Count): Count {
    c.(refs := c.refs + 1)
  }

  function Deref(c: Count): Count {
    if c.refs == 1 then Count(0, c.destructions + 1) else if c.refs == 0 then c else c.(refs := c.refs - 1)
  }

  class Service {
    var refs: nat
    var destructions: nat

    constructor ()
      ensures View() == Count(1, 0)
    {
      refs, destructions := 1, 0;
    }

    ghost function View(): Count
      reads this
    {
      Count(refs, destructions)
    }

    method AddReference()
      modifies this
      ensures View() == Ref(old(View()))
    {
      refs := refs + 1;
    }

    method DropReference()
      requires refs > 0
      modifies this
      ensures View() == Deref(old(View()))
    {
      refs := refs - 1;
      if refs == 0 {
        destructions := destructions + 1;
      }
    }
  }

  /** A group keeps its service, also if it was made from another group. */
  class Group {
    const svc: Service

    constructor (svc: Service)
      modifies svc
      ensures this.svc == svc && svc.View() == Ref(old(svc.View()))
    {
      this.svc := svc;
      new;
      svc.AddReference();
    }

    method AddGroup() returns (g: Group)
      modifies svc
      ensures g.svc == svc && fresh(g) && svc.View() == Ref(old(svc.View()))
    {
      g := new Group(svc);
    }

    method Destroy()
      requires svc.refs > 0
      modifies svc
      ensures svc.View() == Deref(old(svc.View()))
    {
      svc.DropReference();
    }
  }

  // ---------- The protocol ----------

  datatype Via = OfService | OfGroup(g: nat)

  /** The calls are those that run, with the object that they were made on. */
  datatype State = State(count: Count, script: bool, groups: set<nat>, calls: map<nat, Via>)

  datatype Step =
    | Call(c: nat, via: Via)
    | MakeGroup(c: nat, g: nat)
    | EndCall(c: nat)
    | DropGroup(g: nat)
    | DropService

  predicate Exists(s: State, via: Via) {
    match via
    case OfService => s.script
    case OfGroup(g) => g in s.groups
  }

  /** A call keeps the object that it was made on. */
  predicate Enabled(s: State, step: Step) {
    match step
    case Call(c, via) => c !in s.calls && Exists(s, via)
    case MakeGroup(c, g) => c in s.calls && g !in s.groups
    case EndCall(c) => c in s.calls
    case DropGroup(g) => g in s.groups && forall c :: c in s.calls ==> s.calls[c] != OfGroup(g)
    case DropService => s.script && forall c :: c in s.calls ==> s.calls[c] != OfService
  }

  function Next(s: State, step: Step): State
    requires Enabled(s, step)
  {
    match step
    case Call(c, via) => s.(calls := s.calls[c := via])
    case MakeGroup(c, g) => s.(count := Ref(s.count), groups := s.groups + {g})
    case EndCall(c) => s.(calls := s.calls - {c})
    case DropGroup(g) => s.(count := Deref(s.count), groups := s.groups - {g})
    case DropService => s.(count := Deref(s.count), script := false)
  }

  ghost predicate Invariant(s: State) {
    s.count.refs == (if s.script then 1 else 0) + |s.groups| &&
    s.count.destructions == (if s.count.refs == 0 then 1 else 0) &&
    forall c :: c in s.calls ==> Exists(s, s.calls[c])
  }

  /** A running call keeps the service. */
  lemma Kept(s: State)
    requires Invariant(s) && exists c :: c in s.calls
    ensures s.count.refs > 0
  {
    var c :| c in s.calls;
    assert Exists(s, s.calls[c]);
    if s.calls[c].OfGroup? {
      assert s.groups != {};
    }
  }

  lemma GroupMade(s: State, c: nat, g: nat)
    requires Invariant(s) && Enabled(s, MakeGroup(c, g))
    ensures Invariant(Next(s, MakeGroup(c, g)))
  {
    Kept(s);
    assert |s.groups + {g}| == |s.groups| + 1;
    forall d | d in s.calls ensures Exists(Next(s, MakeGroup(c, g)), s.calls[d]) {
      assert Exists(s, s.calls[d]);
    }
  }

  lemma GroupDropped(s: State, g: nat)
    requires Invariant(s) && Enabled(s, DropGroup(g))
    ensures Invariant(Next(s, DropGroup(g)))
  {
    assert |s.groups - {g}| == |s.groups| - 1;
    forall d | d in s.calls ensures Exists(Next(s, DropGroup(g)), s.calls[d]) {
      assert Exists(s, s.calls[d]);
    }
  }

  lemma InvariantKept(s: State, step: Step)
    requires Invariant(s) && Enabled(s, step)
    ensures Invariant(Next(s, step))
  {
    match step {
      case Call(_, _) =>
      case MakeGroup(c, g) => GroupMade(s, c, g);
      case EndCall(_) =>
      case DropGroup(g) => GroupDropped(s, g);
      case DropService =>
    }
  }

  ghost predicate Leads(s: State, steps: seq<Step>, t: State)
    decreases |steps|
  {
    if steps == [] then t == s else Enabled(s, steps[0]) && Leads(Next(s, steps[0]), steps[1..], t)
  }

  lemma {:induction false} RunInvariant(s: State, steps: seq<Step>, t: State)
    requires Invariant(s) && Leads(s, steps, t)
    ensures Invariant(t)
    decreases |steps|
  {
    hide Invariant, Enabled, Next;
    if steps == [] {
    } else {
      InvariantKept(s, steps[0]);
      RunInvariant(Next(s, steps[0]), steps[1..], t);
    }
  }

  /** In every run the service is destroyed once, exactly when the script and all groups are gone; no call ever
      reaches a destroyed service. */
  lemma ServiceOutlivesGroups(steps: seq<Step>, s: State)
    requires Leads(State(Count(1, 0), true, {}, map[]), steps, s)
    ensures s.count.destructions <= 1
    ensures s.count.destructions == 1 <==> !s.script && s.groups == {}
    ensures s.calls != map[] ==> s.count.destructions == 0
  {
    RunInvariant(State(Count(1, 0), true, {}, map[]), steps, s);
    if s.calls != map[] {
      assert s.calls.Keys != {};
      var c :| c in s.calls;
      Kept(s);
    }
  }
}
