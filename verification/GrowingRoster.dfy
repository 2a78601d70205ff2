/** One owner per row while providers join: the hash changes with the roster size and the
    dispatcher works from a stale roster, yet the placement index keeps every row on one node. */
module GrowingRoster {
  import opened Wrappers
  import opened Registry
  import opened MeshProtocol

  predicate Grows(s: State, l: Label) {
    l.Refresh? ==> forall p | p in s.roster :: p in l.roster
  }

  predicate WholeWrite(l: Label) {
    !l.WChoose? && !l.WEnqueue? && !l.WPlace? && !l.WAbort?
  }

  predicate CleanFailure(l: Label) {
    l.DApply? ==> (l.effect ==> l.ok)
  }

  /** The dispatcher has an acknowledgement to record. */
  predicate HasAck(s: State) {
    AtHead(s) && s.dispatcher.phase.Acked?
  }

  /** If the acknowledged provider holds the row, the index names it already. */
  predicate AckKnown(s: State)
    requires HasAck(s)
  {
    var k, target := s.dispatcher.queue[0].key, s.dispatcher.phase.target;
    Holds(s, target, k) ==> k in s.placement && s.placement[k] == [target]
  }

  predicate NoAckForgotten(s: State, l: Label) {
    l.DAbort? && HasAck(s) ==> AckKnown(s)
  }

  /** Providers are only added, each write is one atomic step, a failed apply had no effect, and the
      dispatcher does not stop between an acknowledgement that brings news and recording it. */
  predicate Allowed(s: State, l: Label) {
    Grows(s, l) && WholeWrite(l) && CleanFailure(l) && NoAckForgotten(s, l)
  }

  ghost predicate Regime(states: seq<State>, labels: seq<Label>) {
    |states| == |labels| + 1 && forall i | 0 <= i < |labels| :: Allowed(states[i], labels[i])
  }

  ghost predicate JustAcked(s: State, k: Key) {
    HasAck(s) && s.dispatcher.queue[0].key == k
  }

  /** A holder is the recorded owner, except between its acknowledgement and the index update. */
  ghost predicate PlacementNames(s: State) {
    forall p, k | Holds(s, p, k) :: JustAcked(s, k) || (k in s.placement && s.placement[k] == [p])
  }

  ghost predicate HoldersKnown(s: State) {
    forall p, k | Holds(s, p, k) :: p in s.roster && (!s.dispatcher.DIdle? ==> p in s.dispatcher.snapshot)
  }

  ghost predicate TargetAgrees(s: State) {
    AtHead(s) && !s.dispatcher.phase.Next? ==>
      && s.dispatcher.phase.target in s.dispatcher.snapshot
      && forall p | Holds(s, p, s.dispatcher.queue[0].key) :: p == s.dispatcher.phase.target
  }

  ghost predicate Inv(s: State) {
    && s.writer.WIdle?
    && (!s.dispatcher.DIdle? ==> forall p | p in s.dispatcher.snapshot :: p in s.roster)
    && Exclusive(s)
    && PlacementNames(s)
    && HoldersKnown(s)
    && TargetAgrees(s)
  }

  lemma SameHolders(s: State, l: Label)
    requires Enabled(s, l) && !l.DApply?
    ensures forall p, k :: Holds(Step(s, l), p, k) <==> Holds(s, p, k)
  {
    assert Step(s, l).providers == s.providers;
  }

  lemma WriteKeepsInv(s: State, l: Label)
    requires Inv(s) && Enabled(s, l) && l.WWrite?
    ensures Inv(Step(s, l))
  {
    SameHolders(s, l);
    var s' := Step(s, l);
    forall p, k | Holds(s', p, k) ensures JustAcked(s', k) || (k in s'.placement && s'.placement[k] == [p]) {
      if k == l.op.key && !JustAcked(s, k) {
        SelectOwnerSticky(k.rowId, s.roster, p);
      }
    }
  }

  lemma ChooseKeepsInv(s: State, l: Label)
    requires Inv(s) && Enabled(s, l) && l.DChoose?
    ensures Inv(Step(s, l))
  {
    SameHolders(s, l);
    var k := s.dispatcher.queue[0].key;
    forall p | Holds(s, p, k)
      ensures SelectOwner(k.rowId, s.dispatcher.snapshot, Existing(s, k)) == Some(p)
    {
      SelectOwnerSticky(k.rowId, s.dispatcher.snapshot, p);
    }
  }

  lemma ApplyKeepsInv(s: State, l: Label)
    requires Inv(s) && Enabled(s, l) && l.DApply? && CleanFailure(l)
    ensures Inv(Step(s, l))
  {
    var s' := Step(s, l);
    var op, target := s.dispatcher.queue[0], s.dispatcher.phase.target;
    forall p, k | Holds(s', p, k) ensures Holds(s, p, k) || (l.ok && p == target && k == op.key) {
    }
    if !l.ok {
      assert s'.providers == s.providers;
    }
  }

  /** A stop after an acknowledgement that brings no news. */
  lemma StopKeepsInv(s: State)
    requires Inv(s) && HasAck(s) && AckKnown(s)
    ensures Inv(Step(s, DAbort))
  {
    SameHolders(s, DAbort);
    assert PlacementNames(Step(s, DAbort));
  }

  lemma OtherKeepsInv(s: State, l: Label)
    requires Inv(s) && Enabled(s, l) && Allowed(s, l) && !l.WWrite? && !l.DChoose? && !l.DApply?
    ensures Inv(Step(s, l))
  {
    SameHolders(s, l);
    if l.DAbort? && HasAck(s) {
      StopKeepsInv(s);
    }
  }

  lemma StepKeepsInv(s: State, l: Label)
    requires Inv(s) && Enabled(s, l) && Allowed(s, l)
    ensures Inv(Step(s, l))
  {
    if l.WWrite? {
      WriteKeepsInv(s, l);
    } else if l.DChoose? {
      ChooseKeepsInv(s, l);
    } else if l.DApply? {
      ApplyKeepsInv(s, l);
    } else {
      OtherKeepsInv(s, l);
    }
  }

  lemma {:induction false} RunKeepsInv(states: seq<State>, labels: seq<Label>, i: nat)
    requires Execution(states, labels) && Regime(states, labels) && i < |states|
    ensures Inv(states[i])
  {
    if i > 0 {
      RunKeepsInv(states, labels, i - 1);
      assert Follows(states[i - 1], labels[i - 1], states[i]) && Allowed(states[i - 1], labels[i - 1]);
      StepKeepsInv(states[i - 1], labels[i - 1]);
    }
  }

  /** Every reachable state has at most one holder per row, and the placement index names it
      unless the dispatcher is about to record exactly that. */
  lemma OneHolderPerRow(states: seq<State>, labels: seq<Label>, i: nat)
    requires Execution(states, labels) && Regime(states, labels) && i < |states|
    ensures Exclusive(states[i]) && PlacementNames(states[i])
  {
    RunKeepsInv(states, labels, i);
  }
}
