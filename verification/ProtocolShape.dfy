/** Bookkeeping facts of every run: op ids are unique, the batch is part of the buffer,
    and providers only know ops that were enqueued. */
module ProtocolShape {
  import opened MeshProtocol

  ghost predicate Distinct(ops: seq<WriteOp>) {
    forall i, j | 0 <= i < j < |ops| :: ops[i].id != ops[j].id
  }

  ghost predicate Logged(s: State, id: string) {
    exists op :: op in s.log && op.id == id
  }

  ghost predicate QueueShape(s: State) {
    s.dispatcher.DDraining? ==>
      Distinct(s.dispatcher.queue) && forall op | op in s.dispatcher.queue :: op in s.buffer
  }

  ghost predicate AppliedLogged(s: State) {
    forall p, id | id in Db(s, p).applied :: Logged(s, id)
  }

  ghost predicate Wf(s: State) {
    && Distinct(s.log)
    && Distinct(s.buffer)
    && (forall op | op in s.buffer :: op in s.log)
    && QueueShape(s)
    && (s.writer.WChosen? ==> !Logged(s, s.writer.op.id) && WellKeyed(s, s.writer.op))
    && (forall op | op in s.log :: WellKeyed(s, op))
    && AppliedLogged(s)
  }

  lemma {:induction false} WithoutDistinct(ops: seq<WriteOp>, id: string)
    requires Distinct(ops)
    ensures Distinct(Without(ops, id))
  {
    if ops != [] {
      WithoutDistinct(ops[1..], id);
      WithoutContents(ops[1..], id);
      var rest := Without(ops[1..], id);
      forall j | 0 <= j < |rest| ensures ops[0].id != rest[j].id {
        assert rest[j] in ops[1..];
      }
    }
  }

  lemma SameId(ops: seq<WriteOp>, a: WriteOp, b: WriteOp)
    requires Distinct(ops) && a in ops && b in ops && a.id == b.id
    ensures a == b
  {
    var i :| 0 <= i < |ops| && ops[i] == a;
    var j :| 0 <= j < |ops| && ops[j] == b;
  }

  lemma EnqueueKeepsWf(s: State)
    requires Wf(s) && s.writer.WChosen?
    ensures Wf(EnqueueStep(s))
  {
    var s' := EnqueueStep(s);
    assert forall op | op in s.log :: op.id != s.writer.op.id by {
      assert !Logged(s, s.writer.op.id);
    }
    forall i | 0 <= i < |s.buffer| ensures s.buffer[i].id != s.writer.op.id {
      assert s.buffer[i] in s.log;
    }
    forall p, id | id in Db(s', p).applied ensures Logged(s', id) {
      assert id in Db(s, p).applied && Logged(s, id);
      var op :| op in s.log && op.id == id;
      assert op in s'.log;
    }
  }

  lemma FrameApplied(s: State, s': State)
    requires AppliedLogged(s) && s'.providers == s.providers && s'.log == s.log
    ensures AppliedLogged(s')
  {
    forall p, id | id in Db(s', p).applied ensures Logged(s', id) {
      assert id in Db(s, p).applied && Logged(s, id);
      var op :| op in s.log && op.id == id;
      assert op in s'.log;
    }
  }

  lemma WriterKeepsWf(s: State, l: Label)
    requires Wf(s) && Enabled(s, l) && (l.WChoose? || l.WEnqueue? || l.WWrite? || l.WPlace? || l.WAbort?)
    ensures Wf(Step(s, l))
  {
    if l.WEnqueue? {
      EnqueueKeepsWf(s);
    } else if l.WWrite? {
      var s1 := ChooseStep(s, l.op);
      FrameApplied(s, s1);
      EnqueueKeepsWf(s1);
      FrameApplied(EnqueueStep(s1), Step(s, l));
    } else {
      FrameApplied(s, Step(s, l));
    }
  }

  lemma RemoveKeepsWf(s: State, l: Label)
    requires Wf(s) && Enabled(s, l) && (l.DDrop? || l.DDelete?)
    ensures Wf(Step(s, l))
  {
    var head := s.dispatcher.queue[0];
    WithoutDistinct(s.buffer, head.id);
    WithoutContents(s.buffer, head.id);
    forall op | op in s.dispatcher.queue[1..] ensures op in Step(s, l).buffer {
      assert op in s.dispatcher.queue;
    }
    FrameApplied(s, Step(s, l));
  }

  lemma DispatcherKeepsWf(s: State, l: Label)
    requires Wf(s) && Enabled(s, l)
    requires l.DSnapshot? || l.DTake? || l.DChoose? || l.DPlace? || l.DAbort? || l.RegisterTable? || l.Refresh?
    ensures Wf(Step(s, l))
  {
    FrameApplied(s, Step(s, l));
  }

  lemma ApplyKeepsWf(s: State, l: Label)
    requires Wf(s) && Enabled(s, l) && l.DApply?
    ensures Wf(Step(s, l))
  {
    var s' := Step(s, l);
    var head := s.dispatcher.queue[0];
    assert head in s.dispatcher.queue && head in s'.log;
    forall p, id | id in Db(s', p).applied ensures Logged(s', id) {
      if id in Db(s, p).applied {
        assert Logged(s, id);
        var op :| op in s.log && op.id == id;
        assert op in s'.log;
      } else {
        assert id == head.id;
      }
    }
  }

  lemma StepKeepsWf(s: State, l: Label)
    requires Wf(s) && Enabled(s, l)
    ensures Wf(Step(s, l))
  {
    if l.WChoose? || l.WEnqueue? || l.WWrite? || l.WPlace? || l.WAbort? {
      WriterKeepsWf(s, l);
    } else if l.DDrop? || l.DDelete? {
      RemoveKeepsWf(s, l);
    } else if l.DApply? {
      ApplyKeepsWf(s, l);
    } else {
      DispatcherKeepsWf(s, l);
    }
  }

  lemma {:induction false} RunKeepsWf(states: seq<State>, labels: seq<Label>, i: nat)
    requires Execution(states, labels) && i < |states|
    ensures Wf(states[i])
  {
    if i > 0 {
      RunKeepsWf(states, labels, i - 1);
      assert Follows(states[i - 1], labels[i - 1], states[i]);
      StepKeepsWf(states[i - 1], labels[i - 1]);
    }
  }

  lemma {:induction false} LogGrows(states: seq<State>, labels: seq<Label>, i: nat, j: nat)
    requires Execution(states, labels) && i <= j < |states|
    ensures states[i].log <= states[j].log
    ensures forall t | t in states[i].tables :: t in states[j].tables && states[j].tables[t] == states[i].tables[t]
    decreases j
  {
    if i < j {
      LogGrows(states, labels, i, j - 1);
      assert Follows(states[j - 1], labels[j - 1], states[j]);
    }
  }

  lemma {:induction false} AppliedStays(states: seq<State>, labels: seq<Label>, i: nat, j: nat, p: string, id: string)
    requires Execution(states, labels) && i <= j < |states| && id in Db(states[i], p).applied
    ensures id in Db(states[j], p).applied
    decreases j
  {
    if i < j {
      AppliedStays(states, labels, i, j - 1, p, id);
      assert Follows(states[j - 1], labels[j - 1], states[j]);
    }
  }
}
