/** Every accepted write is still buffered or was acknowledged by a provider that recorded it. */
module NoLostWrites {
  import opened MeshProtocol

  ghost predicate Acknowledged(s: State, op: WriteOp) {
    exists p :: (op.id, p) in s.acks && op.id in Db(s, p).applied
  }

  ghost predicate NothingLost(s: State) {
    forall op | op in s.log :: op in s.buffer || Acknowledged(s, op)
  }

  ghost predicate HeadAcked(s: State) {
    AtHead(s) && (s.dispatcher.phase.Acked? || s.dispatcher.phase.Placed?) ==>
      (s.dispatcher.queue[0].id, s.dispatcher.phase.target) in s.acks
  }

  ghost predicate Inv(s: State) {
    && NothingLost(s)
    && HeadAcked(s)
    && (forall a | a in s.acks :: a.0 in Db(s, a.1).applied)
    && (forall op | op in s.log :: op.key.table in s.tables)
    && (forall op | op in s.buffer :: op in s.log)
    && (s.dispatcher.DDraining? ==> forall op | op in s.dispatcher.queue :: op in s.log)
    && (s.writer.WChosen? ==> s.writer.op.key.table in s.tables)
  }

  lemma ApplyKeepsInv(s: State, l: Label)
    requires Inv(s) && Enabled(s, l) && l.DApply?
    ensures Inv(Step(s, l))
  {
    var s' := Step(s, l);
    forall op | op in s.log && op !in s.buffer ensures Acknowledged(s', op) {
      var p :| (op.id, p) in s.acks && op.id in Db(s, p).applied;
      assert (op.id, p) in s'.acks && op.id in Db(s', p).applied;
    }
  }

  lemma DeleteKeepsInv(s: State, l: Label)
    requires Inv(s) && Enabled(s, l) && l.DDelete?
    ensures Inv(Step(s, l))
  {
    var s' := Step(s, l);
    var head, target := s.dispatcher.queue[0], s.dispatcher.phase.target;
    WithoutContents(s.buffer, head.id);
    forall op | op in s.log && op !in s'.buffer ensures Acknowledged(s', op) {
      if op in s.buffer {
        assert (op.id, target) in s'.acks;
      } else {
        var p :| (op.id, p) in s.acks && op.id in Db(s, p).applied;
        assert (op.id, p) in s'.acks;
      }
    }
  }

  lemma QuietKeepsNothingLost(s: State, s': State)
    requires NothingLost(s) && s'.providers == s.providers && s'.acks == s.acks
    requires forall op | op in s.buffer :: op in s'.buffer
    requires forall op | op in s'.log :: op in s.log || op in s'.buffer
    ensures NothingLost(s')
  {
    forall op | op in s'.log && op !in s'.buffer ensures Acknowledged(s', op) {
      var p :| (op.id, p) in s.acks && op.id in Db(s, p).applied;
      assert (op.id, p) in s'.acks && Db(s', p) == Db(s, p);
    }
  }

  /** Steps of the writer and of the surroundings. */
  lemma OutsideKeepsInv(s: State, l: Label)
    requires Inv(s) && Enabled(s, l) && Exempt(l)
    ensures Inv(Step(s, l))
  {
    QuietKeepsNothingLost(s, Step(s, l));
    assert forall p :: Db(Step(s, l), p) == Db(s, p);
  }

  predicate Exempt(l: Label) {
    l.WChoose? || l.WEnqueue? || l.WPlace? || l.WAbort? || l.WWrite? || l.Refresh? || l.RegisterTable?
  }

  /** Steps of the dispatcher that neither apply nor delete. */
  lemma DispatcherKeepsInv(s: State, l: Label)
    requires Inv(s) && Enabled(s, l) && !Exempt(l) && !l.DApply? && !l.DDelete?
    ensures Inv(Step(s, l))
  {
    assert !l.DDrop?;
    QuietKeepsNothingLost(s, Step(s, l));
    assert forall p :: Db(Step(s, l), p) == Db(s, p);
  }

  lemma StepKeepsInv(s: State, l: Label)
    requires Inv(s) && Enabled(s, l)
    ensures Inv(Step(s, l))
  {
    if l.DApply? {
      ApplyKeepsInv(s, l);
    } else if l.DDelete? {
      DeleteKeepsInv(s, l);
    } else if Exempt(l) {
      OutsideKeepsInv(s, l);
    } else {
      DispatcherKeepsInv(s, l);
    }
  }

  lemma {:induction false} RunKeepsInv(states: seq<State>, labels: seq<Label>, i: nat)
    requires Execution(states, labels) && i < |states|
    ensures Inv(states[i])
  {
    if i > 0 {
      RunKeepsInv(states, labels, i - 1);
      assert Follows(states[i - 1], labels[i - 1], states[i]);
      StepKeepsInv(states[i - 1], labels[i - 1]);
    }
  }

  /** No run, whatever fails and however the roster changes, loses an enqueued op. */
  lemma NoAcceptedWriteIsLost(states: seq<State>, labels: seq<Label>)
    requires Execution(states, labels)
    ensures forall s | s in states :: NothingLost(s)
  {
    forall s | s in states ensures NothingLost(s) {
      var i :| 0 <= i < |states| && states[i] == s;
      RunKeepsInv(states, labels, i);
    }
  }

  /** The dispatcher's "unknown table: drop the op" branch is never taken. */
  lemma DropBranchUnreachable(states: seq<State>, labels: seq<Label>)
    requires Execution(states, labels)
    ensures DDrop !in labels
    ensures forall s | s in states :: !Enabled(s, DDrop)
  {
    forall s | s in states ensures !Enabled(s, DDrop) {
      var i :| 0 <= i < |states| && states[i] == s;
      RunKeepsInv(states, labels, i);
      if AtHead(s) {
        assert s.dispatcher.queue[0] in s.log;
      }
    }
    forall i | 0 <= i < |labels| ensures labels[i] != DDrop {
      assert Follows(states[i], labels[i], states[i + 1]) && states[i] in states;
    }
  }
}
