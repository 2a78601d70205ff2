/** What a provider holds, told from the history of the applies that took effect there. */
module RowHistory {
  import opened Json
  import opened MeshProtocol
  import opened ProtocolShape

  /** This step carries out an op of row `k` on provider `p`, for the first time there. */
  predicate TakesEffect(s: State, l: Label, p: string, k: Key, kind: OpKind)
    requires Enabled(s, l)
  {
    l.DApply? && l.effect && s.dispatcher.phase.target == p &&
    var op := s.dispatcher.queue[0];
    op.key == k && op.kind == kind && op.id !in Db(s, p).applied
  }

  /** Some step from `a` up to `b` deletes the row there. */
  ghost predicate DeletedIn(states: seq<State>, labels: seq<Label>, a: nat, b: nat, p: string, k: Key)
    requires Execution(states, labels) && b <= |labels|
  {
    exists i | a <= i < b :: StepTakesEffect(states, labels, i, p, k, Delete)
  }

  ghost predicate StepTakesEffect(states: seq<State>, labels: seq<Label>, i: nat, p: string, k: Key, kind: OpKind)
    : (effective: bool)
    requires Execution(states, labels) && i < |labels|
    ensures effective ==> AtHead(states[i])
  {
    assert Follows(states[i], labels[i], states[i + 1]);
    TakesEffect(states[i], labels[i], p, k, kind)
  }

  /** The row was inserted by step `a` and no step since then, before `b`, has deleted it. */
  ghost predicate InsertedBy(states: seq<State>, labels: seq<Label>, a: nat, b: nat, p: string, k: Key)
    requires Execution(states, labels) && b <= |labels|
  {
    a < b && StepTakesEffect(states, labels, a, p, k, Insert) && !DeletedIn(states, labels, a + 1, b, p, k)
  }

  ghost predicate Inserted(states: seq<State>, labels: seq<Label>, b: nat, p: string, k: Key)
    requires Execution(states, labels) && b <= |labels|
  {
    exists a: nat | a < b :: InsertedBy(states, labels, a, b, p, k)
  }

  lemma StepHolds(s: State, l: Label, p: string, k: Key)
    requires Enabled(s, l)
    ensures Holds(Step(s, l), p, k) <==>
            TakesEffect(s, l, p, k, Insert) || (Holds(s, p, k) && !TakesEffect(s, l, p, k, Delete))
  {
  }

  lemma InsertedStep(states: seq<State>, labels: seq<Label>, b: nat, p: string, k: Key)
    requires Execution(states, labels) && b < |labels|
    ensures Inserted(states, labels, b + 1, p, k) <==>
            || StepTakesEffect(states, labels, b, p, k, Insert)
            || (Inserted(states, labels, b, p, k) && !StepTakesEffect(states, labels, b, p, k, Delete))
  {
    forall a: nat | a < b
      ensures InsertedBy(states, labels, a, b + 1, p, k) <==>
              InsertedBy(states, labels, a, b, p, k) && !StepTakesEffect(states, labels, b, p, k, Delete)
    {
      assert DeletedIn(states, labels, a + 1, b + 1, p, k) <==>
             DeletedIn(states, labels, a + 1, b, p, k) || StepTakesEffect(states, labels, b, p, k, Delete);
    }
    assert InsertedBy(states, labels, b, b + 1, p, k) <==> StepTakesEffect(states, labels, b, p, k, Insert);
    if Inserted(states, labels, b, p, k) && !StepTakesEffect(states, labels, b, p, k, Delete) {
      var a: nat :| a < b && InsertedBy(states, labels, a, b, p, k);
      assert InsertedBy(states, labels, a, b + 1, p, k);
    }
    if Inserted(states, labels, b + 1, p, k) {
      var a: nat :| a < b + 1 && InsertedBy(states, labels, a, b + 1, p, k);
      if a < b {
        assert InsertedBy(states, labels, a, b, p, k);
      }
    }
  }

  /** In every run: a provider holds a row if and only if an INSERT of it took effect there and no DELETE since. */
  lemma {:induction false} HeldExactly(states: seq<State>, labels: seq<Label>, i: nat, p: string, k: Key)
    requires Execution(states, labels) && i < |states|
    ensures Holds(states[i], p, k) <==> Inserted(states, labels, i, p, k)
  {
    if i > 0 {
      HeldExactly(states, labels, i - 1, p, k);
      InsertedStep(states, labels, i - 1, p, k);
      assert Follows(states[i - 1], labels[i - 1], states[i]);
      StepHolds(states[i - 1], labels[i - 1], p, k);
    }
  }

  /** This step writes the row on the provider: it inserts it, or updates one that is there. */
  ghost predicate WritesRow(states: seq<State>, labels: seq<Label>, i: nat, p: string, k: Key)
    requires Execution(states, labels) && i < |labels|
  {
    || StepTakesEffect(states, labels, i, p, k, Insert)
    || (StepTakesEffect(states, labels, i, p, k, Update) && Holds(states[i], p, k))
  }

  /** What it writes: the captured image, or what the UPDATE's statement made of the row. */
  ghost function Written(states: seq<State>, labels: seq<Label>, i: nat, p: string, k: Key): Row
    requires Execution(states, labels) && i < |labels| && WritesRow(states, labels, i, p, k)
  {
    assert Follows(states[i], labels[i], states[i + 1]);
    var op := states[i].dispatcher.queue[0];
    if op.kind == Insert then Image(op) else labels[i].updated
  }

  ghost predicate LastWrite(states: seq<State>, labels: seq<Label>, a: nat, b: nat, p: string, k: Key)
    requires Execution(states, labels) && b <= |labels|
  {
    && a < b && WritesRow(states, labels, a, p, k)
    && forall i | a < i < b :: !WritesRow(states, labels, i, p, k)
  }

  lemma StepRow(states: seq<State>, labels: seq<Label>, i: nat, p: string, k: Key)
    requires Execution(states, labels) && i < |labels| && Holds(states[i + 1], p, k)
    ensures if WritesRow(states, labels, i, p, k) then Db(states[i + 1], p).rows[k] == Written(states, labels, i, p, k)
            else Holds(states[i], p, k) && Db(states[i + 1], p).rows[k] == Db(states[i], p).rows[k]
  {
    assert Follows(states[i], labels[i], states[i + 1]);
    StepHolds(states[i], labels[i], p, k);
  }

  /** And it holds what the last write made of it. */
  lemma {:induction false} HeldRow(states: seq<State>, labels: seq<Label>, i: nat, p: string, k: Key) returns (a: nat)
    requires Execution(states, labels) && i < |states| && Holds(states[i], p, k)
    ensures LastWrite(states, labels, a, i, p, k)
    ensures Db(states[i], p).rows[k] == Written(states, labels, a, p, k)
  {
    assert i > 0;
    var n := i - 1;
    StepRow(states, labels, n, p, k);
    if WritesRow(states, labels, n, p, k) {
      a := n;
    } else {
      a := HeldRow(states, labels, n, p, k);
      LastWriteStays(states, labels, a, n, p, k);
    }
  }

  lemma LastWriteStays(states: seq<State>, labels: seq<Label>, a: nat, b: nat, p: string, k: Key)
    requires Execution(states, labels) && b < |labels|
    requires LastWrite(states, labels, a, b, p, k) && !WritesRow(states, labels, b, p, k)
    ensures LastWrite(states, labels, a, b + 1, p, k)
  {
  }

  /** However often an op is sent, it takes effect on a provider at most once. */
  lemma EffectivelyOnce(states: seq<State>, labels: seq<Label>, i: nat, j: nat, p: string, k: Key, m: Key,
                        kind: OpKind, other: OpKind)
    requires Execution(states, labels) && i < j < |labels|
    requires StepTakesEffect(states, labels, i, p, k, kind) && StepTakesEffect(states, labels, j, p, m, other)
    ensures states[i].dispatcher.queue[0].id != states[j].dispatcher.queue[0].id
  {
    assert Follows(states[i], labels[i], states[i + 1]);
    AppliedStays(states, labels, i + 1, j, p, states[i].dispatcher.queue[0].id);
  }
}
