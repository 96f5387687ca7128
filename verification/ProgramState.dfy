/** Lifecycle states of a program and the merge of two concurrent lifecycle states
    (gigaevo/programs/program_state.py). */
module ProgramState {

  datatype State = Queued | Running | Done | Discarded

  function Successors(s: State): set<State> {
    match s
    case Queued => {Running, Discarded}
    case Running => {Done, Discarded}
    case Done => {Queued, Discarded}
    case Discarded => {}
  }

  predicate ValidTransition(current: State, next: State) {
    current == next || next in Successors(current)
  }

  predicate Terminal(s: State) {
    s == Discarded
  }

  predicate Incomplete(s: State) {
    s == Queued || s == Running
  }

  /** The merged state is one of the two sides, and each side may legally move to it.
      The final error of the original can never be reached. */
  function MergeStates(current: State, incoming: State): (r: State)
    ensures r == current || r == incoming
    ensures ValidTransition(current, r) && ValidTransition(incoming, r)
  {
    if current == incoming then current
    else if Terminal(incoming) then incoming
    else if Terminal(current) then current
    else if ValidTransition(current, incoming) then incoming
    else if ValidTransition(incoming, current) then current
    else assert false; current
  }

  /** A state may stay, be discarded, or go round from queued to running to done and back to queued. */
  lemma TransitionTable(a: State, b: State)
    ensures ValidTransition(a, b) <==>
            a == b || b == Discarded || (a, b) in {(Queued, Running), (Running, Done), (Done, Queued)}
    ensures Terminal(a) <==> a == Discarded
    ensures Incomplete(a) <==> a == Queued || a == Running
  {
  }

  /** Which side arrives first does not matter, and any legal move of one side wins the merge. */
  lemma MergeStatesSymmetric(a: State, b: State)
    ensures MergeStates(a, b) == MergeStates(b, a)
    ensures ValidTransition(a, b) <==> MergeStates(a, b) == b
    ensures Terminal(MergeStates(a, b)) <==> Terminal(a) || Terminal(b)
  {
  }

  /** The merge is not a lattice join: three concurrent states can settle differently
      depending on the order in which they are merged. */
  lemma MergeStatesOrderMatters()
    ensures MergeStates(MergeStates(Queued, Running), Done) == Done
    ensures MergeStates(Queued, MergeStates(Running, Done)) == Queued
  {
  }

  /** Three states settle alike in either grouping exactly when two of them are equal or one is final. */
  lemma MergeStatesAssociativeIff(a: State, b: State, c: State)
    ensures MergeStates(MergeStates(a, b), c) == MergeStates(a, MergeStates(b, c))
       <==> a == b || b == c || a == c || Terminal(a) || Terminal(b) || Terminal(c)
  {
  }

  // ----- merging any number of concurrent states, in the order in which they arrive -----

  function Settled(states: seq<State>): State
    requires states != []
  {
    if |states| == 1 then states[0]
    else MergeStates(Settled(states[..|states| - 1]), states[|states| - 1])
  }

  ghost predicate OrderFree(states: seq<State>)
    requires states != []
  {
    forall other :: SameStates(states, other) ==> Settled(other) == Settled(states)
  }

  ghost predicate SameStates(a: seq<State>, b: seq<State>) {
    multiset(a) == multiset(b)
  }

  lemma SameMembers(a: seq<State>, b: seq<State>)
    requires SameStates(a, b)
    ensures |a| == |b|
    ensures forall s :: s in a <==> s in b
  {
    assert |multiset(a)| == |a| && |multiset(b)| == |b|;
    assert forall s :: s in a <==> s in multiset(a);
    assert forall s :: s in b <==> s in multiset(b);
  }

  lemma {:induction false} SettledTerminal(states: seq<State>)
    requires states != []
    ensures Terminal(Settled(states)) <==> Discarded in states
  {
    if |states| > 1 {
      var init, last := states[..|states| - 1], states[|states| - 1];
      assert states == init + [last];
      SettledTerminal(init);
      MergeStatesSymmetric(Settled(init), last);
    }
  }

  /** With two states in play the one the other may legally move to prevails wherever it occurs. */
  lemma {:induction false} SettledOfTwo(states: seq<State>, weaker: State, stronger: State)
    requires states != [] && ValidTransition(weaker, stronger)
    requires forall s :: s in states ==> s == weaker || s == stronger
    ensures Settled(states) == if stronger in states then stronger else weaker
  {
    MergeStatesSymmetric(weaker, stronger);
    assert states[|states| - 1] in states;
    if |states| > 1 {
      var init, last := states[..|states| - 1], states[|states| - 1];
      assert states == init + [last];
      assert forall s :: s in init ==> s in states;
      SettledOfTwo(init, weaker, stronger);
    }
  }

  lemma SettledSnoc(states: seq<State>, last: State)
    requires states != []
    ensures Settled(states + [last]) == MergeStates(Settled(states), last)
  {
    assert (states + [last])[..|states|] == states;
  }

  /** Whatever came before, three rival states leave the last two of them to decide. */
  lemma LastRivalsDecide(before: seq<State>, a: State, b: State, c: State)
    requires Discarded !in before
    requires ValidTransition(a, b) && ValidTransition(b, c) && ValidTransition(c, a)
    requires a != b && b != c && c != a
    ensures Settled(before + [a, b, c]) == c
  {
    assert before + [a, b, c] == ((before + [a]) + [b]) + [c];
    SettledSnoc(before + [a] + [b], c);
    SettledSnoc(before + [a], b);
    if before == [] {
      assert before + [a] == [a];
    } else {
      SettledSnoc(before, a);
      SettledTerminal(before);
    }
  }

  lemma TakeOut(states: seq<State>, s: State) returns (rest: seq<State>)
    requires s in states
    ensures multiset(rest) + multiset{s} == multiset(states)
    ensures forall x :: x in rest ==> x in states
    ensures forall x :: x in states && x != s ==> x in rest
  {
    var i :| 0 <= i < |states| && states[i] == s;
    rest := states[..i] + states[i + 1..];
    assert states == states[..i] + [s] + states[i + 1..];
  }

  lemma ThreeMore(rest: seq<State>, a: State, b: State, c: State)
    ensures multiset(rest + [a, b, c]) == multiset(rest) + multiset{a, b, c}
  {
    assert multiset([a, b, c]) == multiset{a, b, c};
  }

  lemma TakeOutRivals(states: seq<State>) returns (rest: seq<State>)
    requires Queued in states && Running in states && Done in states
    ensures multiset(rest) + multiset{Queued, Running, Done} == multiset(states)
    ensures forall x :: x in rest ==> x in states
  {
    var r1 := TakeOut(states, Queued);
    var r2 := TakeOut(r1, Running);
    rest := TakeOut(r2, Done);
    assert multiset{Queued, Running, Done} == multiset{Done} + multiset{Running} + multiset{Queued};
  }

  lemma RivalsOrdered(states: seq<State>)
    requires Queued in states && Running in states && Done in states && Discarded !in states
    ensures !OrderFree(states)
  {
    hide Settled;
    var rest := TakeOutRivals(states);
    var x, y := rest + [Queued, Running, Done], rest + [Running, Done, Queued];
    LastRivalsDecide(rest, Queued, Running, Done);
    LastRivalsDecide(rest, Running, Done, Queued);
    ThreeMore(rest, Queued, Running, Done);
    ThreeMore(rest, Running, Done, Queued);
    assert multiset{Queued, Running, Done} == multiset{Running, Done, Queued};
    assert SameStates(states, x) && SameStates(states, y);
  }

  /** Concurrent states settle independently of the order of arrival exactly when a final state is among
      them or the three others do not all meet. */
  lemma SettlingIsOrderFreeIff(states: seq<State>)
    requires states != []
    ensures OrderFree(states) <==>
            Discarded in states || Queued !in states || Running !in states || Done !in states
  {
    if Discarded !in states && Queued in states && Running in states && Done in states {
      RivalsOrdered(states);
    } else {
      forall other | SameStates(states, other) ensures Settled(other) == Settled(states) {
        SameMembers(states, other);
        if Discarded in states {
          SettledTerminal(states);
          SettledTerminal(other);
        } else {
          var weaker, stronger := if Queued !in states then Running else if Running !in states then Done else Queued,
            if Queued !in states then Done else if Running !in states then Queued else Running;
          SettledOfTwo(states, weaker, stronger);
          SettledOfTwo(other, weaker, stronger);
        }
      }
    }
  }
}
