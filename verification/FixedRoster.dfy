/** One owner per row while the set of active providers does not change. */
module FixedRoster {
  import opened Wrappers
  import opened Registry
  import opened MeshProtocol

  /** Every poll returns the same providers, in any order, or nothing (a restarted gateway). */
  ghost predicate Regime(labels: seq<Label>, members: seq<string>) {
    forall l | l in labels && l.Refresh? :: SameMembers(l.roster, members)
  }

  predicate SameMembers(roster: seq<string>, members: seq<string>) {
    roster == [] || multiset(roster) == multiset(members)
  }

  /** The owner a row has throughout: the node its id hashes to. */
  function Home(members: seq<string>, k: Key): string {
    match SelectOwner(k.rowId, members, [])
    case Some(p) => p
    case None => ""
  }

  lemma HomeIsChosen(members: seq<string>, roster: seq<string>, k: Key, existing: seq<string>)
    requires roster != [] && multiset(roster) == multiset(members)
    requires existing == [] || existing == [Home(members, k)]
    ensures SelectOwner(k.rowId, roster, existing) == Some(Home(members, k))
  {
    SelectOwnerOrderFree(k.rowId, roster, members, existing);
    assert |multiset(members)| == |multiset(roster)|;
    if existing != [] {
      SelectOwnerSticky(k.rowId, members, Home(members, k));
    }
  }

  ghost predicate StoreAtHome(s: State, members: seq<string>) {
    && (forall k | k in s.placement :: s.placement[k] == [Home(members, k)])
    && (forall p, k | Holds(s, p, k) :: p == Home(members, k))
    && (forall e | e in s.sent :: e.1 == Home(members, e.0.key))
  }

  ghost predicate TasksAtHome(s: State, members: seq<string>) {
    && SameMembers(s.roster, members)
    && (s.writer.WChosen? ==> s.writer.owner == Home(members, s.writer.op.key))
    && (s.writer.WEnqueued? ==> s.writer.owner == Home(members, s.writer.key))
    && (!s.dispatcher.DIdle? ==> SameMembers(s.dispatcher.snapshot, members))
    && (AtHead(s) && !s.dispatcher.phase.Next? ==>
          s.dispatcher.phase.target == Home(members, s.dispatcher.queue[0].key))
  }

  ghost predicate Inv(s: State, members: seq<string>) {
    StoreAtHome(s, members) && TasksAtHome(s, members)
  }

  lemma TasksStay(s: State, l: Label, members: seq<string>)
    requires Inv(s, members) && Enabled(s, l) && (l.Refresh? ==> SameMembers(l.roster, members))
    ensures TasksAtHome(Step(s, l), members)
  {
    if l.WChoose? {
      HomeIsChosen(members, s.roster, l.op.key, Existing(s, l.op.key));
    } else if l.DChoose? {
      var k := s.dispatcher.queue[0].key;
      HomeIsChosen(members, s.dispatcher.snapshot, k, Existing(s, k));
    }
  }

  lemma StoreStays(s: State, l: Label, members: seq<string>)
    requires Inv(s, members) && Enabled(s, l) && !l.DApply?
    ensures StoreAtHome(Step(s, l), members)
  {
    var s' := Step(s, l);
    if l.WWrite? {
      HomeIsChosen(members, s.roster, l.op.key, Existing(s, l.op.key));
    }
    StoreFrame(s, l);
    forall p, k | Holds(s', p, k) ensures p == Home(members, k) {
      assert Holds(s, p, k);
    }
  }

  lemma StoreFrame(s: State, l: Label)
    requires Enabled(s, l) && !l.DApply?
    ensures Step(s, l).providers == s.providers && Step(s, l).sent == s.sent
  {
  }

  lemma StepKeepsInv(s: State, l: Label, members: seq<string>)
    requires Inv(s, members) && Enabled(s, l) && (l.Refresh? ==> SameMembers(l.roster, members))
    ensures Inv(Step(s, l), members)
  {
    TasksStay(s, l, members);
    if l.DApply? {
      ApplyStays(s, l, members);
    } else {
      StoreStays(s, l, members);
    }
  }

  lemma ApplyStays(s: State, l: Label, members: seq<string>)
    requires Inv(s, members) && Enabled(s, l) && l.DApply?
    ensures StoreAtHome(Step(s, l), members)
  {
    var s' := Step(s, l);
    var op, target := s.dispatcher.queue[0], s.dispatcher.phase.target;
    forall p, k | Holds(s', p, k) ensures p == Home(members, k) {
      if !Holds(s, p, k) {
        assert p == target && k == op.key;
      }
    }
  }

  lemma {:induction false} RunKeepsInv(states: seq<State>, labels: seq<Label>, members: seq<string>, i: nat)
    requires Execution(states, labels) && Regime(labels, members) && i < |states|
    ensures Inv(states[i], members)
  {
    if i > 0 {
      RunKeepsInv(states, labels, members, i - 1);
      assert Follows(states[i - 1], labels[i - 1], states[i]);
      StepKeepsInv(states[i - 1], labels[i - 1], members);
    }
  }

  /** Under every interleaving of the writer's and the dispatcher's separate steps, with applies that
      may fail after taking effect and tasks that may stop anywhere: all applies ever issued for a row
      went to one provider, only that provider can hold the row, and any placement names it alone. */
  lemma OneOwnerPerRow(states: seq<State>, labels: seq<Label>, members: seq<string>, i: nat)
    requires Execution(states, labels) && Regime(labels, members) && i < |states|
    ensures Exclusive(states[i])
    ensures forall a, b | a in states[i].sent && b in states[i].sent && a.0.key == b.0.key :: a.1 == b.1
    ensures forall a, p | a in states[i].sent && Holds(states[i], p, a.0.key) :: p == a.1
    ensures forall a | a in states[i].sent && a.0.key in states[i].placement ::
              states[i].placement[a.0.key] == [a.1]
    ensures forall p, k | Holds(states[i], p, k) && k in states[i].placement :: states[i].placement[k] == [p]
  {
    RunKeepsInv(states, labels, members, i);
  }
}
