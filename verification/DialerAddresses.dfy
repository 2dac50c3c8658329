/** The addresses that the sandbox dialer tries, in their order, and the time that each of them is given. */
module DialerAddresses {
  type Address = nat

  datatype Family = Any | Inet | Inet6

  const DEFAULT_TIMEOUT_MS := 2000
  const MIN_SLICE_MS := 10
  const INT_LIMIT := 0x8000_0000

  /** The families to resolve, in the order of the IP resolution order option. */
  function Families(orderIp: int): (families: seq<Family>)
    ensures forall i, j :: 0 <= i < j < |families| ==> families[i] != families[j]
  {
    match orderIp
    case 4 => [Inet]
    case 6 => [Inet6]
    case 46 => [Inet, Inet6]
    case 64 => [Inet6, Inet]
    case _ => [Any]
  }

  /** The answer of the resolver; it is empty if the resolution failed. */
  function Resolved(resolver: map<Family, seq<Address>>, f: Family): seq<Address> {
    if f in resolver then resolver[f] else []
  }

  /** The order that a shuffle gave to each family: any rearrangement of its addresses. */
  ghost predicate Shuffles(resolver: map<Family, seq<Address>>, shuffled: map<Family, seq<Address>>) {
    forall f :: f in resolver ==> f in shuffled && multiset(shuffled[f]) == multiset(resolver[f])
  }

  /** The addresses of one family as they are tried. */
  function Group(resolver: map<Family, seq<Address>>, shuffled: map<Family, seq<Address>>, noRandomize: bool, f: Family)
    : seq<Address>
  {
    if noRandomize || |Resolved(resolver, f)| <= 1 || f !in shuffled then Resolved(resolver, f) else shuffled[f]
  }

  function Groups(resolver: map<Family, seq<Address>>, shuffled: map<Family, seq<Address>>, noRandomize: bool,
                  families: seq<Family>): seq<Address>
  {
    if families == [] then []
    else
      Groups(resolver, shuffled, noRandomize, families[..|families| - 1])
      + Group(resolver, shuffled, noRandomize, families[|families| - 1])
  }

  lemma NoGroups(resolver: map<Family, seq<Address>>, shuffled: map<Family, seq<Address>>, noRandomize: bool,
                 families: seq<Family>)
    ensures Groups(resolver, shuffled, noRandomize, families[..0]) == []
  {
  }

  lemma OneMoreGroup(resolver: map<Family, seq<Address>>, shuffled: map<Family, seq<Address>>, noRandomize: bool,
                     families: seq<Family>, i: nat)
    requires i < |families|
    ensures Groups(resolver, shuffled, noRandomize, families[..i + 1]) ==
            Groups(resolver, shuffled, noRandomize, families[..i]) + Group(resolver, shuffled, noRandomize, families[i])
  {
    hide Group;
    assert families[..i + 1][..i] == families[..i];
  }

  /** The loop over the families: each family is appended, and only its own part of the list is shuffled. */
  method CollectAddresses(orderIp: int, noRandomize: bool, resolver: map<Family, seq<Address>>,
                          shuffled: map<Family, seq<Address>>) returns (addresses: seq<Address>)
    requires Shuffles(resolver, shuffled)
    ensures addresses == Groups(resolver, shuffled, noRandomize, Families(orderIp))
  {
    hide Groups, Families;
    var families := Families(orderIp);
    addresses := [];
    NoGroups(resolver, shuffled, noRandomize, families);
    for i := 0 to |families|
      invariant addresses == Groups(resolver, shuffled, noRandomize, families[..i])
    {
      var f := families[i];
      OneMoreGroup(resolver, shuffled, noRandomize, families, i);
      if f !in resolver || resolver[f] == [] {
        continue;
      }
      var start := |addresses|;
      addresses := addresses + resolver[f];
      if !noRandomize && |addresses| - start > 1 {
        addresses := addresses[..start] + shuffled[f];
      }
    }
    assert families[..|families|] == families;
  }

  /** Everything that the resolver found for some families. */
  function Found(resolver: map<Family, seq<Address>>, families: seq<Family>): multiset<Address> {
    if families == [] then multiset{}
    else Found(resolver, families[..|families| - 1]) + multiset(Resolved(resolver, families[|families| - 1]))
  }

  /** Every resolved address is tried as often as it was resolved, and no other. */
  lemma {:induction false} NoAddressLost(resolver: map<Family, seq<Address>>, shuffled: map<Family, seq<Address>>,
                                         noRandomize: bool, families: seq<Family>)
    requires Shuffles(resolver, shuffled)
    ensures multiset(Groups(resolver, shuffled, noRandomize, families)) == Found(resolver, families)
    decreases |families|
  {
    if families == [] {
    } else {
      NoAddressLost(resolver, shuffled, noRandomize, families[..|families| - 1]);
    }
  }

  lemma GroupPermutes(resolver: map<Family, seq<Address>>, shuffled: map<Family, seq<Address>>, noRandomize: bool,
                      f: Family)
    requires Shuffles(resolver, shuffled)
    ensures multiset(Group(resolver, shuffled, noRandomize, f)) == multiset(Resolved(resolver, f))
    ensures noRandomize ==> Group(resolver, shuffled, noRandomize, f) == Resolved(resolver, f)
  {
  }

  lemma TwoGroups(resolver: map<Family, seq<Address>>, shuffled: map<Family, seq<Address>>, noRandomize: bool,
                  f: Family, g: Family)
    ensures Groups(resolver, shuffled, noRandomize, [f, g]) ==
            Group(resolver, shuffled, noRandomize, f) + Group(resolver, shuffled, noRandomize, g)
  {
    hide Group;
    assert [f, g][..1] == [f] && [f][..0] == [];
    var a := Group(resolver, shuffled, noRandomize, f);
    assert Groups(resolver, shuffled, noRandomize, [f]) == [] + a;
  }

  lemma SameLength(a: seq<Address>, b: seq<Address>)
    requires multiset(a) == multiset(b)
    ensures |a| == |b|
  {
    assert |multiset(a)| == |a| && |multiset(b)| == |b|;
  }

  lemma TwoFamilies(resolver: map<Family, seq<Address>>, shuffled: map<Family, seq<Address>>, noRandomize: bool,
                    orderIp: int)
    requires Shuffles(resolver, shuffled) && (orderIp == 46 || orderIp == 64)
    ensures var first, second := if orderIp == 46 then Inet else Inet6, if orderIp == 46 then Inet6 else Inet;
            var tried := Groups(resolver, shuffled, noRandomize, Families(orderIp));
            var n := |Resolved(resolver, first)|;
            |tried| == n + |Resolved(resolver, second)| &&
            multiset(tried[..n]) == multiset(Resolved(resolver, first)) &&
            multiset(tried[n..]) == multiset(Resolved(resolver, second)) &&
            (noRandomize ==> tried == Resolved(resolver, first) + Resolved(resolver, second))
  {
    hide Group, Resolved, Groups;
    var first, second := if orderIp == 46 then Inet else Inet6, if orderIp == 46 then Inet6 else Inet;
    GroupPermutes(resolver, shuffled, noRandomize, first);
    GroupPermutes(resolver, shuffled, noRandomize, second);
    TwoGroups(resolver, shuffled, noRandomize, first, second);
    assert Families(orderIp) == [first, second];
    var a := Group(resolver, shuffled, noRandomize, first);
    var b := Group(resolver, shuffled, noRandomize, second);
    SameLength(a, Resolved(resolver, first));
    SameLength(b, Resolved(resolver, second));
    assert (a + b)[..|a|] == a && (a + b)[|a|..] == b;
  }

  lemma OneFamily(resolver: map<Family, seq<Address>>, shuffled: map<Family, seq<Address>>, noRandomize: bool,
                  orderIp: int)
    requires Shuffles(resolver, shuffled) && orderIp != 46 && orderIp != 64
    ensures var found := Resolved(resolver, if orderIp == 4 then Inet else if orderIp == 6 then Inet6 else Any);
            var tried := Groups(resolver, shuffled, noRandomize, Families(orderIp));
            multiset(tried) == multiset(found) && (noRandomize ==> tried == found)
  {
    hide Group, Resolved;
    var f := if orderIp == 4 then Inet else if orderIp == 6 then Inet6 else Any;
    assert Families(orderIp) == [f] && [f][..0] == [];
    GroupPermutes(resolver, shuffled, noRandomize, f);
    var a := Group(resolver, shuffled, noRandomize, f);
    assert Groups(resolver, shuffled, noRandomize, [f]) == [] + a;
  }

  /** The families keep their order: with two of them, the list is a rearrangement of the addresses of the first,
      followed by one of the second; otherwise it is a rearrangement of the addresses of the one family, or of any.
      Without randomization, it is what the resolver returned. */
  predicate InOrder(tried: seq<Address>, resolver: map<Family, seq<Address>>, noRandomize: bool, orderIp: int) {
    if orderIp == 46 || orderIp == 64 then
      var first, second := if orderIp == 46 then Inet else Inet6, if orderIp == 46 then Inet6 else Inet;
      var n := |Resolved(resolver, first)|;
      |tried| == n + |Resolved(resolver, second)| &&
      multiset(tried[..n]) == multiset(Resolved(resolver, first)) &&
      multiset(tried[n..]) == multiset(Resolved(resolver, second)) &&
      (noRandomize ==> tried == Resolved(resolver, first) + Resolved(resolver, second))
    else
      var found := Resolved(resolver, if orderIp == 4 then Inet else if orderIp == 6 then Inet6 else Any);
      multiset(tried) == multiset(found) && (noRandomize ==> tried == found)
  }

  lemma FamiliesInOrder(resolver: map<Family, seq<Address>>, shuffled: map<Family, seq<Address>>, noRandomize: bool,
                        orderIp: int)
    requires Shuffles(resolver, shuffled)
    ensures InOrder(Groups(resolver, shuffled, noRandomize, Families(orderIp)), resolver, noRandomize, orderIp)
  {
    hide Groups, Resolved, Families;
    if orderIp == 46 || orderIp == 64 {
      TwoFamilies(resolver, shuffled, noRandomize, orderIp);
    } else {
      OneFamily(resolver, shuffled, noRandomize, orderIp);
    }
  }

  // ---------- The time budget ----------

  /** The connect timeout option, with the default for a value that is not positive. */
  function ConnectTimeout(option: int): (t: int)
    ensures t > 0
  {
    if option > 0 then option else DEFAULT_TIMEOUT_MS
  }

  function PerAddress(timeoutMs: int, count: nat): int
    requires count > 0 && timeoutMs > 0
  {
    if timeoutMs / count < MIN_SLICE_MS then MIN_SLICE_MS else timeoutMs / count
  }

  /** The conversion of a 64-bit number to a 32-bit int. */
  function ToInt(v: int): (r: int)
    ensures -INT_LIMIT <= r < INT_LIMIT
  {
    var low := v % 0x1_0000_0000;
    if low < INT_LIMIT then low else low - 0x1_0000_0000
  }

  /** The milliseconds that the wait for one connection is given. */
  function Slice(timeoutMs: int, count: nat): int
    requires count > 0 && timeoutMs > 0
  {
    ToInt(PerAddress(timeoutMs, count))
  }

  lemma Scale(a: nat, b: nat, c: nat)
    requires a <= b
    ensures a * c <= b * c
  {
    assert b * c == a * c + (b - a) * c;
    assert (b - a) * c >= 0;
  }

  lemma DivideLess(timeoutMs: int, count: nat, limit: nat)
    requires count > 0 && timeoutMs > 0
    ensures timeoutMs / count < limit <==> timeoutMs < limit * count
  {
    var q := timeoutMs / count;
    assert timeoutMs == q * count + timeoutMs % count;
    if q < limit {
      Scale(q + 1, limit, count);
      assert (q + 1) * count == q * count + count;
    } else {
      Scale(limit, q, count);
    }
  }

  /** Each address is given its share of the timeout, or the shortest time if the share is shorter, exactly when the
      share fits a 32-bit int. */
  lemma SharesFit(timeoutMs: int, count: nat)
    requires count > 0 && timeoutMs > 0
    ensures Slice(timeoutMs, count) == PerAddress(timeoutMs, count) <==> timeoutMs < INT_LIMIT * count
  {
    DivideLess(timeoutMs, count, INT_LIMIT);
  }

  /** A timeout that the option accepts, and that gives its only address a negative time: 2^31 milliseconds. */
  lemma ShareThatDoesNotFit()
    ensures Slice(ConnectTimeout(INT_LIMIT), 1) == -INT_LIMIT
  {
    assert PerAddress(INT_LIMIT, 1) == INT_LIMIT;
  }

  /** The time for one address, with every number written out: its share of the timeout option if that is positive and of
      2000 ms otherwise, at least 10 ms, as a 32-bit int. */
  predicate IsShare(wait: int, option: int, count: nat)
    requires count > 0
  {
    var timeout := if option > 0 then option else 2000;
    var share := if timeout / count < 10 then 10 else timeout / count;
    -0x8000_0000 <= wait < 0x8000_0000 && (share - wait) % 0x1_0000_0000 == 0
  }

  lemma SliceIsShare(option: int, count: nat)
    requires count > 0
    ensures IsShare(Slice(ConnectTimeout(option), count), option, count)
  {
  }

  /** Where the share fits, no address gets less than the shortest time; together they get no more than the timeout, or
      the shortest times, and no more than a millisecond for each address is left over. */
  lemma SharesAreBounded(timeoutMs: int, count: nat)
    requires count > 0 && 0 < timeoutMs < INT_LIMIT * count
    ensures Slice(timeoutMs, count) >= MIN_SLICE_MS
    ensures timeoutMs >= MIN_SLICE_MS * count ==>
              timeoutMs - count < count * Slice(timeoutMs, count) <= timeoutMs
    ensures timeoutMs < MIN_SLICE_MS * count ==> Slice(timeoutMs, count) == MIN_SLICE_MS
  {
    SharesFit(timeoutMs, count);
    DivideLess(timeoutMs, count, MIN_SLICE_MS);
    assert timeoutMs == (timeoutMs / count) * count + timeoutMs % count;
  }
}
