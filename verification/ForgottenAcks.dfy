/** When the dispatcher stops between an acknowledgement and recording it, while providers join. */
module ForgottenAcks {
  import opened Registry
  import opened MeshProtocol
  import opened ProtocolShape
  import opened GrowingRoster

  // ----- More that every run of the regime keeps -----

  /** Every written row is placed on one provider of the roster. */
  ghost predicate RowsPlaced(s: State) {
    forall op | op in s.log :: PlacedOnRoster(s, op.key)
  }

  predicate PlacedOnRoster(s: State, k: Key) {
    k in s.placement && |s.placement[k]| == 1 && s.placement[k][0] in s.roster
  }

  /** Providers that the dispatcher's roster does not name have never applied anything. */
  ghost predicate AppliersKnown(s: State) {
    forall p | Db(s, p).applied != {} :: p in s.roster && (!s.dispatcher.DIdle? ==> p in s.dispatcher.snapshot)
  }

  /** The target is the placed provider, unless the dispatcher's roster is too old to name that one. */
  ghost predicate TargetPlaced(s: State) {
    AtHead(s) && !s.dispatcher.phase.Next? ==>
      var k := s.dispatcher.queue[0].key;
      && k in s.placement
      && forall q | q in s.placement[k] :: q == s.dispatcher.phase.target || q !in s.dispatcher.snapshot
  }

  /** An acknowledgement brings news only for a row that it has just created. */
  ghost predicate NewsIsInsert(s: State) {
    HasAck(s) && !AckKnown(s) ==> s.dispatcher.queue[0].kind == Insert
  }

  ghost predicate Known(s: State) {
    RowsPlaced(s) && AppliersKnown(s) && TargetPlaced(s) && NewsIsInsert(s)
  }

  /** A write of a row that is placed on the roster leaves it there. */
  lemma WriteIsSticky(s: State, l: Label, k: Key)
    requires Enabled(s, l) && l.WWrite? && PlacedOnRoster(s, k)
    ensures Step(s, l).placement[k] == s.placement[k]
  {
    var q := s.placement[k][0];
    assert s.placement[k] == [q];
    SelectOwnerSticky(k.rowId, s.roster, q);
  }

  lemma WriteKeepsKnown(s: State, l: Label)
    requires Wf(s) && Inv(s) && Known(s) && Enabled(s, l) && l.WWrite?
    ensures Known(Step(s, l))
  {
    var s' := Step(s, l);
    forall k | PlacedOnRoster(s, k) ensures s'.placement[k] == s.placement[k] {
      WriteIsSticky(s, l, k);
    }
    assert forall p :: Db(s', p) == Db(s, p);
    forall op | op in s'.log ensures PlacedOnRoster(s', op.key) {
      if op in s.log {
        assert PlacedOnRoster(s, op.key);
      }
    }
    if AtHead(s) {
      assert s.dispatcher.queue[0] in s.dispatcher.queue && s.dispatcher.queue[0] in s.log;
      assert PlacedOnRoster(s, s.dispatcher.queue[0].key);
    }
  }

  lemma ChooseKeepsKnown(s: State, l: Label)
    requires Wf(s) && Inv(s) && Known(s) && Enabled(s, l) && l.DChoose?
    ensures Known(Step(s, l))
  {
    var s' := Step(s, l);
    assert forall p :: Db(s', p) == Db(s, p);
    var k := s.dispatcher.queue[0].key;
    assert s.dispatcher.queue[0] in s.dispatcher.queue && s.dispatcher.queue[0] in s.log;
    assert PlacedOnRoster(s, k);
    var q := s.placement[k][0];
    assert s.placement[k] == [q];
    if q in s.dispatcher.snapshot {
      SelectOwnerSticky(k.rowId, s.dispatcher.snapshot, q);
    }
    assert forall op | op in s.log :: PlacedOnRoster(s, op.key) && PlacedOnRoster(s', op.key);
  }

  lemma ApplyKeepsKnown(s: State, l: Label)
    requires Wf(s) && Inv(s) && Known(s) && Enabled(s, l) && l.DApply? && CleanFailure(l)
    ensures Known(Step(s, l))
  {
    var s' := Step(s, l);
    var head, target := s.dispatcher.queue[0], s.dispatcher.phase.target;
    assert forall op | op in s.log :: PlacedOnRoster(s, op.key) && PlacedOnRoster(s', op.key);
    assert forall p | p != target :: Db(s', p) == Db(s, p);
    assert !l.ok ==> s'.providers == s.providers;
    if HasAck(s') && !AckKnown(s') {
      assert !Holds(s, target, head.key);
    }
  }

  lemma PlaceKeepsKnown(s: State, l: Label)
    requires Wf(s) && Inv(s) && Known(s) && Enabled(s, l) && l.DPlace?
    ensures Known(Step(s, l))
  {
    var s' := Step(s, l);
    assert forall p :: Db(s', p) == Db(s, p);
    forall op | op in s'.log ensures PlacedOnRoster(s', op.key) {
      assert PlacedOnRoster(s, op.key);
    }
  }

  lemma OtherKeepsKnown(s: State, l: Label)
    requires Wf(s) && Inv(s) && Known(s) && Enabled(s, l) && Allowed(s, l)
    requires !l.WWrite? && !l.DChoose? && !l.DApply? && !l.DPlace?
    ensures Known(Step(s, l))
  {
    var s' := Step(s, l);
    assert forall p :: Db(s', p) == Db(s, p);
    forall op | op in s'.log ensures PlacedOnRoster(s', op.key) {
      assert PlacedOnRoster(s, op.key);
    }
  }

  lemma StepKeepsKnown(s: State, l: Label)
    requires Wf(s) && Inv(s) && Known(s) && Enabled(s, l) && Allowed(s, l)
    ensures Known(Step(s, l))
  {
    if l.WWrite? {
      WriteKeepsKnown(s, l);
    } else if l.DChoose? {
      ChooseKeepsKnown(s, l);
    } else if l.DApply? {
      ApplyKeepsKnown(s, l);
    } else if l.DPlace? {
      PlaceKeepsKnown(s, l);
    } else {
      OtherKeepsKnown(s, l);
    }
  }

  lemma {:induction false} RunKeepsKnown(states: seq<State>, labels: seq<Label>, i: nat)
    requires Execution(states, labels) && Regime(states, labels) && i < |states|
    ensures Wf(states[i]) && Inv(states[i]) && Known(states[i])
  {
    RunKeepsWf(states, labels, i);
    RunKeepsInv(states, labels, i);
    if i > 0 {
      RunKeepsKnown(states, labels, i - 1);
      assert Follows(states[i - 1], labels[i - 1], states[i]) && Allowed(states[i - 1], labels[i - 1]);
      StepKeepsKnown(states[i - 1], labels[i - 1]);
    }
  }

  // ----- Runs from a given state -----

  /** The labels lead from `s` to `s'`, each within the regime. */
  ghost predicate Leads(s: State, labels: seq<Label>, s': State)
    decreases |labels|
  {
    if labels == [] then s == s'
    else Enabled(s, labels[0]) && Allowed(s, labels[0]) && Leads(Step(s, labels[0]), labels[1..], s')
  }

  lemma LeadsStep(s: State, l: Label, rest: seq<Label>, s': State)
    requires Enabled(s, l) && Allowed(s, l) && Leads(Step(s, l), rest, s')
    ensures Leads(s, [l] + rest, s')
  {
    assert ([l] + rest)[1..] == rest;
  }

  lemma {:induction false} LeadsOn(s: State, a: seq<Label>, m: State, b: seq<Label>, s': State)
    requires Leads(s, a, m) && Leads(m, b, s')
    ensures Leads(s, a + b, s')
    decreases |a|
  {
    if a == [] {
      assert a + b == b;
    } else {
      LeadsOn(Step(s, a[0]), a[1..], m, b, s');
      assert (a + b)[1..] == a[1..] + b;
    }
  }

  lemma {:induction false} LeadsKeepsInv(s: State, labels: seq<Label>, s': State)
    requires Inv(s) && Leads(s, labels, s')
    ensures Inv(s')
    decreases |labels|
  {
    if labels != [] {
      StepKeepsInv(s, labels[0]);
      LeadsKeepsInv(Step(s, labels[0]), labels[1..], s');
    }
  }

  /** Some run within the regime goes on from `s` to a state with two holders of one row. */
  ghost predicate CanSplit(s: State) {
    exists labels, s' :: Splits(s, labels, s')
  }

  ghost predicate Splits(s: State, labels: seq<Label>, s': State) {
    Leads(s, labels, s') && !Exclusive(s')
  }

  // ----- The split -----

  /** The dispatcher is at the head of `queue`, with nothing done for it yet. */
  function AtQueue(s: State, queue: seq<WriteOp>, sent: set<(WriteOp, string)>): State {
    s.(dispatcher := DDraining(s.roster, queue, Next), sent := sent)
  }

  /** The op at the head fails without effect, and the batch moves on. */
  lemma FailHead(s: State, queue: seq<WriteOp>, sent: set<(WriteOp, string)>)
    returns (labels: seq<Label>, more: set<(WriteOp, string)>)
    requires queue != [] && s.roster != [] && queue[0].key.table in s.tables
    ensures Leads(AtQueue(s, queue, sent), labels, AtQueue(s, queue[1..], more))
  {
    var s0 := AtQueue(s, queue, sent);
    var s1 := Step(s0, DChoose);
    var s2 := Step(s1, DApply(false, false, map[]));
    more := s2.sent;
    assert s2 == AtQueue(s, queue[1..], more);
    labels := [];
    LeadsStep(s1, DApply(false, false, map[]), labels, s2);
    labels := [DApply(false, false, map[])] + labels;
    LeadsStep(s0, DChoose, labels, s2);
    labels := [DChoose] + labels;
  }

  lemma {:induction false} FailFirst(s: State, queue: seq<WriteOp>, sent: set<(WriteOp, string)>, n: nat)
    returns (labels: seq<Label>, more: set<(WriteOp, string)>)
    requires n <= |queue| && s.roster != [] && forall op | op in queue :: op.key.table in s.tables
    ensures Leads(AtQueue(s, queue, sent), labels, AtQueue(s, queue[n..], more))
    decreases n
  {
    if n == 0 {
      labels, more := [], sent;
      assert queue[0..] == queue;
    } else {
      assert queue[0] in queue;
      var a, mid := FailHead(s, queue, sent);
      var b, last := FailFirst(s, queue[1..], mid, n - 1);
      assert queue[1..][n - 1..] == queue[n..];
      LeadsOn(AtQueue(s, queue, sent), a, AtQueue(s, queue[1..], mid), b, AtQueue(s, queue[n..], last));
      labels, more := a + b, last;
    }
  }

  /** A new tick on an idle dispatcher takes the whole buffer. */
  lemma NewTick(s: State) returns (labels: seq<Label>)
    requires s.dispatcher.DIdle? && s.roster != []
    ensures Leads(s, labels, AtQueue(s, s.buffer, s.sent))
  {
    var n := |s.buffer|;
    var s1 := Step(s, DSnapshot);
    var s2 := Step(s1, DTake(n));
    assert s.buffer[..n] == s.buffer;
    assert s2 == AtQueue(s, s.buffer, s.sent);
    labels := [];
    LeadsStep(s1, DTake(n), labels, s2);
    labels := [DTake(n)] + labels;
    LeadsStep(s, DSnapshot, labels, s2);
    labels := [DSnapshot] + labels;
  }

  /** An INSERT at the head is stored by the provider on which its row is placed. */
  lemma StoreHead(s: State, queue: seq<WriteOp>, sent: set<(WriteOp, string)>, q: string)
    returns (labels: seq<Label>, s': State)
    requires queue != [] && queue[0].key.table in s.tables && queue[0].kind == Insert
    requires q in s.roster && Existing(s, queue[0].key) == [q] && queue[0].id !in Db(s, q).applied
    ensures Leads(AtQueue(s, queue, sent), labels, s') && Holds(s', q, queue[0].key)
    ensures forall p | p != q :: Db(s', p) == Db(s, p)
  {
    var s0 := AtQueue(s, queue, sent);
    SelectOwnerSticky(queue[0].key.rowId, s.roster, q);
    var s1 := Step(s0, DChoose);
    assert s1.dispatcher.phase == Chosen(q);
    s' := Step(s1, DApply(true, true, map[]));
    labels := [];
    LeadsStep(s1, DApply(true, true, map[]), labels, s');
    labels := [DApply(true, true, map[])] + labels;
    LeadsStep(s0, DChoose, labels, s');
    labels := [DChoose] + labels;
  }

  /** The state after the stop, and what makes it dangerous. */
  lemma StoppedShort(s: State) returns (q: string, i: nat)
    requires Wf(s) && Inv(s) && Known(s) && HasAck(s) && !AckKnown(s)
    ensures var head, target := s.dispatcher.queue[0], s.dispatcher.phase.target;
      && i < |s.buffer| && s.buffer[i] == head && head.kind == Insert && Holds(s, target, head.key)
      && q != target && q in s.roster && Existing(s, head.key) == [q] && head.id !in Db(s, q).applied
  {
    var head := s.dispatcher.queue[0];
    assert head in s.dispatcher.queue && head in s.buffer && head in s.log;
    assert PlacedOnRoster(s, head.key);
    q := s.placement[head.key][0];
    assert s.placement[head.key] == [q];
    i :| 0 <= i < |s.buffer| && s.buffer[i] == head;
    assert Db(s, q).applied == {};
  }

  /** The next tick fails the earlier ops and stores the row where it is placed. */
  lemma SplitsAfterStop(s: State)
    requires Wf(s) && Inv(s) && Known(s) && HasAck(s) && !AckKnown(s)
    ensures CanSplit(Step(s, DAbort))
  {
    var q, i := StoppedShort(s);
    var head, target := s.dispatcher.queue[0], s.dispatcher.phase.target;
    var s0 := Step(s, DAbort);
    var tables := s.tables;
    assert forall op | op in s.buffer :: op in s.log && op.key.table in tables;
    var a := NewTick(s0);
    var b, sent := FailFirst(s0, s.buffer, s0.sent, i);
    assert s.buffer[i..][0] == head;
    var c, s' := StoreHead(s0, s.buffer[i..], sent, q);
    LeadsOn(AtQueue(s0, s.buffer, s0.sent), b, AtQueue(s0, s.buffer[i..], sent), c, s');
    LeadsOn(s0, a, AtQueue(s0, s.buffer, s0.sent), b + c, s');
    assert Holds(s', target, head.key) && Holds(s', q, head.key);
    assert Splits(s0, a + (b + c), s');
  }

  /**
   * In every run of the regime that has an acknowledgement to record: if the dispatcher stops there,
   * the run can go on to put a row on two providers if and only if the index does not already name
   * the provider that acknowledged.
   */
  lemma StopExactly(states: seq<State>, labels: seq<Label>)
    requires Execution(states, labels) && Regime(states, labels) && HasAck(states[|labels|])
    ensures CanSplit(Step(states[|labels|], DAbort)) <==> !AckKnown(states[|labels|])
  {
    var s := states[|labels|];
    RunKeepsKnown(states, labels, |labels|);
    if AckKnown(s) {
      StepKeepsInv(s, DAbort);
      forall more, s' | Leads(Step(s, DAbort), more, s') ensures Exclusive(s') {
        LeadsKeepsInv(Step(s, DAbort), more, s');
      }
    } else {
      SplitsAfterStop(s);
    }
  }
}
