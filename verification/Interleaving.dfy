/** The steps of one thread and, in the gaps between them, those of all others. */
module Interleaving {

  /** The steps of the thread, each followed by one gap; when the gaps are used up the others do nothing more. */
  function Woven<S>(own: seq<S>, gaps: seq<seq<S>>): seq<S> {
    if own == [] then []
    else [own[0]] + if gaps == [] then Woven(own[1..], []) else gaps[0] + Woven(own[1..], gaps[1..])
  }

  /** A list of gaps is cut into those that are over and those that are left.  The next one is due after a step of the
      thread. */
  predicate Cut<S(==)>(all: seq<seq<S>>, gone: seq<seq<S>>, left: seq<seq<S>>, steps: nat, due: bool) {
    all == gone + left && |gone| <= steps && (left == [] || steps == |gone| + if due then 1 else 0)
  }

  lemma {:induction false} WovenStep<S>(own: seq<S>, gaps: seq<seq<S>>, step: S)
    requires |gaps| <= |own|
    ensures Woven(own + [step], gaps) == Woven(own, gaps) + [step]
  {
    if own == [] {
      assert [step][1..] == [];
    } else {
      assert (own + [step])[1..] == own[1..] + [step];
      WovenStep(own[1..], if gaps == [] then [] else gaps[1..], step);
    }
  }

  lemma {:induction false} WovenGap<S>(own: seq<S>, gaps: seq<seq<S>>, gap: seq<S>)
    requires |own| == |gaps| + 1
    ensures Woven(own, gaps + [gap]) == Woven(own, gaps) + gap
  {
    if gaps == [] {
      assert own[1..] == [] && [gap][1..] == [] && [] + [gap] == [gap];
      assert gap + [] == gap && [own[0]] + [] == [own[0]];
    } else {
      assert (gaps + [gap])[1..] == gaps[1..] + [gap];
      WovenGap(own[1..], gaps[1..], gap);
      assert Woven(own, gaps + [gap]) == [own[0]] + (gaps[0] + (Woven(own[1..], gaps[1..]) + gap));
    }
  }
}
