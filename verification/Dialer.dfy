/** The sandbox dialer: it checks the policy for each address, connects to the allowed ones in order, and keeps the
    first connection; every other socket is closed. */
module Dialer {
  import opened Wrappers
  import opened DialerAddresses
  import DialerExceptions

  datatype Status = Connected | NoServer | SystemError | TimedOut | Failed | NotPermitted

  /** What the poll for a pending connection answers, with the error of the socket if it is ready. */
  datatype Poll = Ready(failed: bool) | Expired | PollFails | Cancelled

  datatype Connect = AtOnce | Refused | Pending(poll: Poll)

  /** The answers of the system to the calls that are made for one address. */
  datatype Answers = Answers(socket: bool, nonblocking: bool, connect: Connect, options: bool)

  /** What is known of an address: whether the policy allows it, and how the system answers. */
  datatype Target = Target(address: Address, allowed: bool, answers: Answers)

  predicate Established(c: Connect) {
    c == AtOnce || c == Pending(Ready(false))
  }

  /** The address connects. */
  predicate Connects(t: Target) {
    t.allowed && t.answers.socket && t.answers.nonblocking && Established(t.answers.connect) && t.answers.options
  }

  /** The thread is interrupted while it waits for the address. */
  predicate Interrupts(t: Target) {
    t.allowed && t.answers.socket && t.answers.nonblocking && t.answers.connect == Pending(Cancelled)
  }

  /** The number of the exception that an interruption raises. */
  const INTERRUPTION: DialerExceptions.Exception := 0

  /** The sockets of the process. */
  class Sockets {
    var openCount: nat
    var closeCount: nat

    constructor ()
      ensures openCount == 0 && closeCount == 0
    {
      openCount, closeCount := 0, 0;
    }

    method Open(works: bool) returns (fd: int)
      modifies this`openCount
      ensures fd >= 0 <==> works
      ensures openCount == old(openCount) + if works then 1 else 0
    {
      if works {
        fd := openCount;
        openCount := openCount + 1;
      } else {
        fd := -1;
      }
    }

    method Close()
      modifies this`closeCount
      ensures closeCount == old(closeCount) + 1
    {
      closeCount := closeCount + 1;
    }
  }

  /** Closes a socket unless it is released. */
  class SocketHolder {
    var fd: int

    constructor (fd: int)
      ensures this.fd == fd
    {
      this.fd := fd;
    }

    method Release() returns (rv: int)
      modifies this
      ensures rv == old(fd) && fd == -1
    {
      rv := fd;
      fd := -1;
    }

    /** The destructor. */
    method Destroy(sockets: Sockets)
      modifies sockets`closeCount
      ensures sockets.closeCount == old(sockets.closeCount) + if fd >= 0 then 1 else 0
    {
      if fd >= 0 {
        sockets.Close();
      }
    }
  }

  /** The connection of one socket, up to its options: OK, or the status of the first call that fails. */
  method ConnectSocket(answers: Answers, timeoutMs: int) returns (status: Status, interrupted: bool, waits: seq<int>)
    ensures status == Connected <==> answers.nonblocking && Established(answers.connect) && answers.options
    ensures interrupted <==> answers.nonblocking && answers.connect == Pending(Cancelled)
    ensures status == Failed <==> interrupted
    ensures status == TimedOut <==> answers.nonblocking && answers.connect == Pending(Expired)
    ensures status == NoServer <==>
            answers.nonblocking && (answers.connect == Refused || answers.connect == Pending(Ready(true)))
    ensures status != NotPermitted
    ensures waits == if answers.nonblocking && answers.connect.Pending? then [timeoutMs] else []
  {
    interrupted := false;
    waits := [];
    if !answers.nonblocking {
      return SystemError, false, [];
    }
    match answers.connect {
      case AtOnce =>
      case Refused =>
        return NoServer, false, [];
      case Pending(poll) =>
        waits := [timeoutMs];
        match poll {
          case Cancelled =>
            return Failed, true, waits;
          case PollFails =>
            return SystemError, false, waits;
          case Expired =>
            return TimedOut, false, waits;
          case Ready(failed) =>
            if failed {
              return NoServer, false, waits;
            }
        }
    }
    status := if answers.options then Connected else SystemError;
  }

  /** Connects to one address.  The holder closes the socket on every way out but the successful one. */
  method ConnectAddress(sockets: Sockets, answers: Answers, timeoutMs: int)
    returns (status: Status, interrupted: bool, fd: Option<int>, waits: seq<int>)
    modifies sockets
    ensures status == Connected <==>
            answers.socket && answers.nonblocking && Established(answers.connect) && answers.options
    ensures interrupted <==> answers.socket && answers.nonblocking && answers.connect == Pending(Cancelled)
    ensures status == Failed <==> interrupted
    ensures status == TimedOut <==> answers.socket && answers.nonblocking && answers.connect == Pending(Expired)
    ensures status == NoServer <==> answers.socket && answers.nonblocking &&
                                    (answers.connect == Refused || answers.connect == Pending(Ready(true)))
    ensures status != NotPermitted
    ensures status == Connected <==> fd.Some?
    ensures fd.Some? ==> fd.value >= 0
    ensures sockets.openCount - sockets.closeCount ==
            old(sockets.openCount) - old(sockets.closeCount) + if status == Connected then 1 else 0
    ensures waits == if answers.socket && answers.nonblocking && answers.connect.Pending? then [timeoutMs] else []
  {
    waits := [];
    var sock := sockets.Open(answers.socket);
    if sock < 0 {
      return SystemError, false, None, [];
    }
    var holder := new SocketHolder(sock);
    status, interrupted, waits := ConnectSocket(answers, timeoutMs);
    fd := None;
    if status == Connected {
      var released := holder.Release();
      fd := Some(released);
    }
    holder.Destroy(sockets);
  }

  /** Nothing ends the loop at a target. */
  predicate PassedOver(t: Target) {
    !Connects(t) && !Interrupts(t)
  }

  /** The first target that connects or interrupts; their number if there is none. */
  function Stop(targets: seq<Target>): (n: nat)
    ensures n <= |targets|
    ensures forall i :: 0 <= i < n ==> PassedOver(targets[i])
    ensures n < |targets| ==> !PassedOver(targets[n])
  {
    if targets == [] || !PassedOver(targets[0]) then 0
    else
      assert forall i :: 1 <= i < |targets| ==> targets[i] == targets[1..][i - 1];
      1 + Stop(targets[1..])
  }

  lemma StopIs(targets: seq<Target>, n: nat)
    requires n <= |targets| && forall i :: 0 <= i < n ==> PassedOver(targets[i])
    requires n < |targets| ==> !PassedOver(targets[n])
    ensures Stop(targets) == n
  {
  }

  /** The addresses that are connected to among the first n: those that the policy allows. */
  function Allowed(targets: seq<Target>, n: nat): seq<Address>
    requires n <= |targets|
  {
    if n == 0 then []
    else Allowed(targets, n - 1) + if targets[n - 1].allowed then [targets[n - 1].address] else []
  }

  lemma OutcomeOf(t: Target)
    ensures Connects(t) <==> t.allowed && t.answers.socket && t.answers.nonblocking && Established(t.answers.connect) &&
                             t.answers.options
    ensures Interrupts(t) <==> t.allowed && t.answers.socket && t.answers.nonblocking &&
                               t.answers.connect == Pending(Cancelled)
    ensures !(Connects(t) && Interrupts(t))
  {
  }

  predicate IsWaitedFor(t: Target) {
    t.allowed && t.answers.socket && t.answers.nonblocking && t.answers.connect.Pending?
  }

  /** The waits for the first n addresses: one for each allowed address whose connection is pending. */
  function Waits(targets: seq<Target>, n: nat, slice: int): seq<int>
    requires n <= |targets|
  {
    if n == 0 then [] else Waits(targets, n - 1, slice) + if IsWaitedFor(targets[n - 1]) then [slice] else []
  }

  /** The loop over the addresses.  The exception of an interrupted connection is kept for the creating thread. */
  method ConnectIntern(sockets: Sockets, exceptions: DialerExceptions.Holder, timeoutMs: int, targets: seq<Target>)
    returns (status: Status, fd: Option<int>, tried: seq<Address>, waits: seq<int>)
    requires timeoutMs > 0
    modifies sockets, exceptions
    ensures var n := Stop(targets);
            (status == Connected <==> n < |targets| && Connects(targets[n])) &&
            (status == Failed <==> n < |targets| && Interrupts(targets[n])) &&
            (status == NotPermitted <==> n == |targets| && exists i :: 0 <= i < |targets| && !targets[i].allowed) &&
            (status == NoServer <==> n == |targets| && forall i :: 0 <= i < |targets| ==> targets[i].allowed) &&
            tried == Allowed(targets, if n < |targets| then n + 1 else n)
    ensures fd.Some? <==> status == Connected
    ensures sockets.openCount - sockets.closeCount ==
            old(sockets.openCount) - old(sockets.closeCount) + if status == Connected then 1 else 0
    ensures exceptions.View() ==
            if status == Failed then DialerExceptions.Keep(old(exceptions.View()), INTERRUPTION).0
            else old(exceptions.View())
    ensures targets != [] ==>
              waits == Waits(targets, if Stop(targets) < |targets| then Stop(targets) + 1 else |targets|,
                             Slice(timeoutMs, |targets|))
    ensures targets == [] ==> waits == []
  {
    hide Connects, Interrupts, Slice;
    tried, waits, fd := [], [], None;
    if targets == [] {
      return NoServer, None, [], [];
    }
    var slice := Slice(timeoutMs, |targets|);
    var denied := false;
    for i := 0 to |targets|
      invariant forall j :: 0 <= j < i ==> PassedOver(targets[j])
      invariant denied <==> exists j :: 0 <= j < i && !targets[j].allowed
      invariant tried == Allowed(targets, i)
      invariant sockets.openCount - sockets.closeCount == old(sockets.openCount) - old(sockets.closeCount)
      invariant exceptions.View() == old(exceptions.View())
      invariant waits == Waits(targets, i, slice)
      invariant fd == None
    {
      OutcomeOf(targets[i]);
      if !targets[i].allowed {
        denied := true;
        continue;
      }
      tried := tried + [targets[i].address];
      var s, interrupted, socket, w := ConnectAddress(sockets, targets[i].answers, slice);
      waits := waits + w;
      if s == Connected {
        StopIs(targets, i);
        return Connected, socket, tried, waits;
      }
      if interrupted {
        StopIs(targets, i);
        var kept := exceptions.KeepException(INTERRUPTION);
        return Failed, None, tried, waits;
      }
    }
    StopIs(targets, |targets|);
    status := if denied then NotPermitted else NoServer;
  }

  /** The resolved addresses, with the decision of the policy and the answers of the system for each of them. */
  function Targets(addresses: seq<Address>, policy: Address -> bool, system: nat -> Answers): (t: seq<Target>)
    ensures |t| == |addresses|
    ensures forall i :: 0 <= i < |t| ==> t[i] == Target(addresses[i], policy(addresses[i]), system(i))
  {
    seq(|addresses|, i requires 0 <= i < |addresses| => Target(addresses[i], policy(addresses[i]), system(i)))
  }

  lemma SameMembers(addresses: seq<Address>, found: multiset<Address>)
    requires multiset(addresses) == found
    ensures forall a :: a in addresses <==> a in found
  {
    assert forall a :: a in addresses <==> a in multiset(addresses);
  }

  lemma InAfterAppend(places: seq<nat>, n: nat)
    ensures forall i: nat :: i in places + [n] <==> i in places || i == n
  {
  }

  /** What is tried is the addresses at increasing places of the list: those that the policy allows, each once for each
      of its places, in their order. */
  lemma {:induction false} OnlyAllowed(targets: seq<Target>, n: nat) returns (places: seq<nat>)
    requires n <= |targets|
    ensures |places| == |Allowed(targets, n)|
    ensures forall k :: 0 <= k < |places| ==>
                          places[k] < n && targets[places[k]].allowed &&
                          Allowed(targets, n)[k] == targets[places[k]].address
    ensures forall j, k :: 0 <= j < k < |places| ==> places[j] < places[k]
    ensures forall i :: 0 <= i < n && targets[i].allowed ==> i in places
  {
    if n == 0 {
      places := [];
    } else {
      places := OnlyAllowed(targets, n - 1);
      if targets[n - 1].allowed {
        InAfterAppend(places, n - 1);
        places := places + [n - 1];
      }
    }
  }

  // ---------- What a connection by host name means ----------

  /** The address at a place of the list connects. */
  predicate ConnectsAt(list: seq<Address>, policy: Address -> bool, system: nat -> Answers, i: nat)
    requires i < |list|
  {
    var a := system(i);
    policy(list[i]) && a.socket && a.nonblocking && (a.connect == AtOnce || a.connect == Pending(Ready(false))) && a.options
  }

  /** The thread is interrupted while it waits for the address. */
  predicate InterruptedAt(list: seq<Address>, policy: Address -> bool, system: nat -> Answers, i: nat)
    requires i < |list|
  {
    var a := system(i);
    policy(list[i]) && a.socket && a.nonblocking && a.connect == Pending(Cancelled)
  }

  /** The connection to the address is waited for. */
  predicate WaitsAt(list: seq<Address>, policy: Address -> bool, system: nat -> Answers, i: nat)
    requires i < |list|
  {
    var a := system(i);
    policy(list[i]) && a.socket && a.nonblocking && a.connect.Pending?
  }

  /** The first address that connects or interrupts decides, and ends the loop; without one, the policy does. */
  predicate Decided(list: seq<Address>, policy: Address -> bool, system: nat -> Answers, status: Status, end: nat) {
    end <= |list| && (status == Connected || status == Failed || status == NotPermitted || status == NoServer) &&
    var last := if status == Connected || status == Failed then 1 else 0;
    (last == 1 ==> end > 0) && (last == 0 ==> end == |list|) &&
    (forall j :: 0 <= j < end - last ==>
                   !ConnectsAt(list, policy, system, j) && !InterruptedAt(list, policy, system, j)) &&
    (status == Connected ==> ConnectsAt(list, policy, system, end - 1)) &&
    (status == Failed ==> InterruptedAt(list, policy, system, end - 1)) &&
    (status == NotPermitted ==> exists j :: 0 <= j < |list| && !policy(list[j])) &&
    (status == NoServer ==> forall j :: 0 <= j < |list| ==> policy(list[j]))
  }

  /** What is tried is the allowed addresses among the first ones of the list, at increasing places. */
  predicate TriedAt(list: seq<Address>, policy: Address -> bool, end: nat, tried: seq<Address>, places: seq<nat>)
    requires end <= |list|
  {
    |places| == |tried| && (forall j, k :: 0 <= j < k < |places| ==> places[j] < places[k]) &&
    (forall k :: 0 <= k < |places| ==> places[k] < end && policy(list[places[k]]) && tried[k] == list[places[k]]) &&
    (forall i :: 0 <= i < end && policy(list[i]) ==> i in places)
  }

  /** The number of addresses that the loop looks at. */
  function EndOf(targets: seq<Target>): (end: nat)
    ensures end <= |targets|
  {
    if Stop(targets) < |targets| then Stop(targets) + 1 else |targets|
  }

  lemma StopDecides(list: seq<Address>, policy: Address -> bool, system: nat -> Answers, status: Status)
    requires var targets := Targets(list, policy, system); var n := Stop(targets);
             (status == Connected <==> n < |targets| && Connects(targets[n])) &&
             (status == Failed <==> n < |targets| && Interrupts(targets[n])) &&
             (status == NotPermitted <==> n == |targets| && exists i :: 0 <= i < |targets| && !targets[i].allowed) &&
             (status == NoServer <==> n == |targets| && forall i :: 0 <= i < |targets| ==> targets[i].allowed)
    ensures Decided(list, policy, system, status, EndOf(Targets(list, policy, system)))
  {
    hide Targets, Stop;
    var targets := Targets(list, policy, system);
    forall i | 0 <= i < |list|
      ensures ConnectsAt(list, policy, system, i) <==> Connects(targets[i])
      ensures InterruptedAt(list, policy, system, i) <==> Interrupts(targets[i])
    {
      OutcomeOf(targets[i]);
    }
    if i :| 0 <= i < |targets| && !targets[i].allowed {
      assert !policy(list[i]);
    }
  }

  lemma WaitedFor(list: seq<Address>, policy: Address -> bool, system: nat -> Answers, i: nat)
    requires i < |list|
    ensures IsWaitedFor(Targets(list, policy, system)[i]) <==> WaitsAt(list, policy, system, i)
  {
  }

  /** The places of the list up to some point that are waited for. */
  function WaitPlaces(list: seq<Address>, policy: Address -> bool, system: nat -> Answers, end: nat): set<nat>
    requires end <= |list|
  {
    set i: nat | i < end && WaitsAt(list, policy, system, i)
  }

  lemma NoPlaces(list: seq<Address>, policy: Address -> bool, system: nat -> Answers)
    ensures WaitPlaces(list, policy, system, 0) == {}
  {
  }

  lemma OneMorePlace(list: seq<Address>, policy: Address -> bool, system: nat -> Answers, n: nat)
    requires n < |list|
    ensures |WaitPlaces(list, policy, system, n + 1)| ==
            |WaitPlaces(list, policy, system, n)| + if WaitsAt(list, policy, system, n) then 1 else 0
  {
    hide WaitsAt;
    var before, now := WaitPlaces(list, policy, system, n), WaitPlaces(list, policy, system, n + 1);
    assert n !in before && now == before + if WaitsAt(list, policy, system, n) then {n} else {};
  }

  lemma {:induction false} WaitsCounted(list: seq<Address>, policy: Address -> bool, system: nat -> Answers,
                                        targets: seq<Target>, n: nat, slice: int)
    requires targets == Targets(list, policy, system) && n <= |list|
    ensures |Waits(targets, n, slice)| == |WaitPlaces(list, policy, system, n)|
    ensures forall w :: w in Waits(targets, n, slice) ==> w == slice
    decreases n
  {
    hide Targets, WaitsAt, WaitPlaces, IsWaitedFor;
    if n == 0 {
      NoPlaces(list, policy, system);
    } else {
      WaitsCounted(list, policy, system, targets, n - 1, slice);
      OneMorePlace(list, policy, system, n - 1);
      WaitedFor(list, policy, system, n - 1);
    }
  }

  lemma AllowedPlaces(list: seq<Address>, policy: Address -> bool, system: nat -> Answers, end: nat)
    returns (places: seq<nat>)
    requires end <= |list|
    ensures TriedAt(list, policy, end, Allowed(Targets(list, policy, system), end), places)
  {
    hide Allowed;
    places := OnlyAllowed(Targets(list, policy, system), end);
  }

  lemma NothingTried(targets: seq<Target>)
    requires targets == []
    ensures Allowed(targets, 0) == []
  {
  }

  /** Only allowed and resolved addresses are tried, and all of them before it is reported that none connects. */
  lemma TriedAreFound(list: seq<Address>, found: multiset<Address>, policy: Address -> bool, system: nat -> Answers,
                      status: Status, end: nat, tried: seq<Address>, places: seq<nat>)
    requires multiset(list) == found && Decided(list, policy, system, status, end)
    requires TriedAt(list, policy, end, tried, places)
    ensures forall a :: a in tried ==> policy(a) && a in found
    ensures status == NotPermitted ==> exists a :: a in found && !policy(a)
    ensures status == NoServer ==> forall a :: a in found ==> policy(a) && a in tried
  {
    hide ConnectsAt, InterruptedAt;
    SameMembers(list, found);
    forall a | a in tried ensures policy(a) && a in found {
      var k :| 0 <= k < |tried| && tried[k] == a;
      assert places[k] < end;
    }
    if status == NoServer {
      forall a | a in found ensures policy(a) && a in tried {
        var i :| 0 <= i < |list| && list[i] == a;
        assert i in places;
      }
    }
  }

  /** A connection by host name.  The list is what the resolver found, in the order that the options ask for; the
      addresses are tried in this order, each of them if the policy allows it and each for its share of the timeout,
      until one connects or the thread is interrupted. */
  method Dial(sockets: Sockets, exceptions: DialerExceptions.Holder, timeoutOption: int, orderIp: int, noRandomize: bool,
              resolver: map<Family, seq<Address>>, shuffled: map<Family, seq<Address>>,
              policy: Address -> bool, system: nat -> Answers)
    returns (status: Status, fd: Option<int>, tried: seq<Address>, waits: seq<int>,
             ghost list: seq<Address>, ghost end: nat, ghost places: seq<nat>)
    requires Shuffles(resolver, shuffled)
    modifies sockets, exceptions
    ensures InOrder(list, resolver, noRandomize, orderIp)
    ensures Decided(list, policy, system, status, end)
    ensures end <= |list| && TriedAt(list, policy, end, tried, places)
    ensures list == [] ==> tried == [] && waits == []
    ensures list != [] ==>
              |waits| == |WaitPlaces(list, policy, system, end)| &&
              forall w :: w in waits ==> IsShare(w, timeoutOption, |list|)
    ensures exceptions.initial == old(exceptions.initial)
    ensures exceptions.pending == if status == Failed && old(exceptions.initial) && old(exceptions.pending).None?
                                  then Some(INTERRUPTION) else old(exceptions.pending)
    ensures status == Connected <==> fd.Some?
    ensures sockets.openCount - sockets.closeCount ==
            old(sockets.openCount) - old(sockets.closeCount) + if status == Connected then 1 else 0
    ensures forall a :: a in tried ==> policy(a) && a in Found(resolver, Families(orderIp))
    ensures status == NotPermitted ==> exists a :: a in Found(resolver, Families(orderIp)) && !policy(a)
    ensures status == NoServer ==>
              forall a :: a in Found(resolver, Families(orderIp)) ==> policy(a) && a in tried
  {
    hide Found, Groups, Families, Connects, Interrupts, PassedOver, Allowed, Targets, Waits, WaitPlaces, Slice,
      IsShare, InOrder, Decided, TriedAt, Stop, ConnectTimeout;
    var addresses := CollectAddresses(orderIp, noRandomize, resolver, shuffled);
    FamiliesInOrder(resolver, shuffled, noRandomize, orderIp);
    NoAddressLost(resolver, shuffled, noRandomize, Families(orderIp));
    var targets := Targets(addresses, policy, system);
    status, fd, tried, waits := ConnectIntern(sockets, exceptions, ConnectTimeout(timeoutOption), targets);
    list, end := addresses, EndOf(targets);
    StopDecides(addresses, policy, system, status);
    places := AllowedPlaces(addresses, policy, system, end);
    TriedAreFound(addresses, Found(resolver, Families(orderIp)), policy, system, status, end, tried, places);
    if list == [] {
      NothingTried(targets);
    } else {
      WaitsCounted(addresses, policy, system, targets, end, Slice(ConnectTimeout(timeoutOption), |list|));
      SliceIsShare(timeoutOption, |list|);
    }
  }
}
