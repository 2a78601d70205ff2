/** Point reads against the write protocol: what was inserted is read. */
module ReadYourInsert {
  import opened Json
  import opened MeshProtocol
  import opened PointReads
  import opened ProtocolShape
  import NoLostWrites
  import FixedRoster
  import GrowingRoster
  import RosterRaces

  lemma {:induction false} SolePending(buffer: seq<WriteOp>, op: WriteOp)
    requires op.kind == Insert && forall o | o in buffer && o.key == op.key :: o == op
    ensures op in buffer ==> op.key.rowId in PendingRows(buffer, op.key.table) &&
                             PendingRows(buffer, op.key.table)[op.key.rowId] == op.payload
    ensures op !in buffer ==> op.key.rowId !in PendingRows(buffer, op.key.table)
  {
    if buffer != [] {
      var init := buffer[..|buffer| - 1];
      assert buffer == init + [buffer[|buffer| - 1]];
      SolePending(init, op);
    }
  }

  ghost predicate Sole(s: State, op: WriteOp) {
    forall o | o in s.log && o.key == op.key :: o == op
  }

  ghost predicate AppliedMeansStored(s: State, op: WriteOp) {
    forall p | op.id in Db(s, p).applied :: Holds(s, p, op.key) && Db(s, p).rows[op.key] == Image(op)
  }

  // ----- What providers hold, whatever the placements say -----

  /** A provider holds the row exactly when it has applied the op, and then as the op has it. */
  ghost predicate Stored(s: State, op: WriteOp) {
    && (op in s.log ==> AppliedMeansStored(s, op))
    && forall p | Holds(s, p, op.key) :: op in s.log && op.id in Db(s, p).applied
  }

  lemma StoredApply(s: State, l: Label, op: WriteOp)
    requires Wf(s) && Stored(s, op) && op.kind == Insert && Sole(s, op)
    requires Enabled(s, l) && l.DApply?
    ensures Stored(Step(s, l), op)
  {
    var s' := Step(s, l);
    var head := s.dispatcher.queue[0];
    assert head in s.dispatcher.queue && head in s.log;
    assert head.key == op.key ==> head == op;
    if op in s.log && head.id == op.id {
      SameId(s.log, head, op);
    }
    forall p | op in s.log && op.id in Db(s', p).applied
      ensures Holds(s', p, op.key) && Db(s', p).rows[op.key] == Image(op)
    {
      if op.id in Db(s, p).applied {
        assert Holds(s, p, op.key);
      }
    }
    forall p | Holds(s', p, op.key) ensures op in s'.log && op.id in Db(s', p).applied {
      if Holds(s, p, op.key) {
        assert op.id in Db(s, p).applied;
      }
    }
  }

  lemma StoredFrame(s: State, s': State, op: WriteOp)
    requires Wf(s) && Stored(s, op) && s'.providers == s.providers
    requires (op in s.log ==> op in s'.log) && (op in s'.log && op !in s.log ==> !Logged(s, op.id))
    ensures Stored(s', op)
  {
    assert forall p :: Db(s', p) == Db(s, p);
    forall p | op in s'.log && op.id in Db(s', p).applied
      ensures Holds(s', p, op.key) && Db(s', p).rows[op.key] == Image(op)
    {
      assert op.id in Db(s, p).applied && Logged(s, op.id);
    }
    forall p | Holds(s', p, op.key) ensures op in s'.log && op.id in Db(s', p).applied {
      assert Holds(s, p, op.key);
    }
  }

  lemma StoredStep(s: State, l: Label, op: WriteOp)
    requires Wf(s) && Stored(s, op) && op.kind == Insert && Enabled(s, l) && Sole(Step(s, l), op)
    ensures Stored(Step(s, l), op)
  {
    var s' := Step(s, l);
    assert forall o | o in s.log :: o in s'.log;
    if l.DApply? {
      StoredApply(s, l, op);
    } else {
      if op in s'.log && op !in s.log {
        assert !Logged(s, op.id);
      }
      StoredFrame(s, s', op);
    }
  }

  /** In every run, for every row written by one INSERT only. */
  lemma {:induction false} RunKeepsStored(states: seq<State>, labels: seq<Label>, op: WriteOp, i: nat)
    requires Execution(states, labels) && i < |states| && op.kind == Insert && Sole(states[|labels|], op)
    ensures Sole(states[i], op) && Stored(states[i], op)
  {
    LogGrows(states, labels, i, |labels|);
    assert forall o | o in states[i].log :: o in states[|labels|].log;
    if i > 0 {
      RunKeepsStored(states, labels, op, i - 1);
      assert Follows(states[i - 1], labels[i - 1], states[i]);
      RunKeepsWf(states, labels, i - 1);
      StoredStep(states[i - 1], labels[i - 1], op);
    }
  }

  // ----- Where the placement points -----

  /** The placement names one provider, and that provider has applied the op. */
  ghost predicate Settled(s: State, op: WriteOp) {
    exists p :: op.key in s.placement && s.placement[op.key] == [p] && op.id in Db(s, p).applied
  }

  /** Nothing will repair the placement: the op has left the buffer, or is about to. */
  ghost predicate AtRisk(s: State, op: WriteOp) {
    op in s.log && (op !in s.buffer || (AtHead(s) && s.dispatcher.queue[0] == op && s.dispatcher.phase.Placed?))
  }

  /** This step records the writer's choice for the row. */
  predicate PlacesLate(s: State, l: Label, k: Key) {
    l.WPlace? && s.writer.WEnqueued? && s.writer.key == k
  }

  /** If that is late, the chosen provider has the row. */
  ghost predicate PlacesSafely(s: State, l: Label, op: WriteOp) {
    PlacesLate(s, l, op.key) && AtRisk(s, op) ==> op.id in Db(s, s.writer.owner).applied
  }

  ghost predicate AlwaysSafely(states: seq<State>, labels: seq<Label>, op: WriteOp)
    requires |states| == |labels| + 1
  {
    forall i | 0 <= i < |labels| :: PlacesSafely(states[i], labels[i], op)
  }

  ghost predicate SoleInv(s: State, op: WriteOp) {
    AtRisk(s, op) ==> Settled(s, op)
  }

  /** An op comes to be at risk only when its owner is being recorded. */
  lemma RiskArises(s: State, l: Label, op: WriteOp)
    requires Wf(s) && NoLostWrites.Inv(s) && Enabled(s, l) && AtRisk(Step(s, l), op)
    ensures AtRisk(s, op) || (l.DPlace? && s.dispatcher.queue[0] == op)
  {
    var s' := Step(s, l);
    if AtHead(s) {
      assert s.dispatcher.queue[0] in s.dispatcher.queue && s.dispatcher.queue[0] in s.log;
    }
    if l.DDelete? {
      WithoutContents(s.buffer, s.dispatcher.queue[0].id);
      if op in s.log && op.id == s.dispatcher.queue[0].id {
        SameId(s.log, op, s.dispatcher.queue[0]);
      }
    }
    assert !l.DDrop?;
  }

  /** While an op is at risk, only a late placement of its row changes where the placement points. */
  lemma PlacementKept(s: State, l: Label, op: WriteOp)
    requires Wf(s) && Enabled(s, l) && AtRisk(s, op) && Sole(Step(s, l), op) && !PlacesLate(s, l, op.key)
    ensures op.key in s.placement ==>
              op.key in Step(s, l).placement && Step(s, l).placement[op.key] == s.placement[op.key]
  {
    var s' := Step(s, l);
    assert forall o | o in s.log :: o in s'.log;
    if l.DPlace? {
      assert s.dispatcher.queue[0] in s.dispatcher.queue && s.dispatcher.queue[0] in s.log;
    }
    if l.WWrite? {
      assert l.op in s'.log;
    }
  }

  lemma AppliedKept(s: State, l: Label, id: string, p: string)
    requires Enabled(s, l) && id in Db(s, p).applied
    ensures id in Db(Step(s, l), p).applied
  {
  }

  lemma StepKeepsSole(s: State, l: Label, op: WriteOp)
    requires Wf(s) && NoLostWrites.Inv(s) && SoleInv(s, op) && PlacesSafely(s, l, op)
    requires Enabled(s, l) && Sole(Step(s, l), op)
    ensures SoleInv(Step(s, l), op)
  {
    var s' := Step(s, l);
    if AtRisk(s', op) {
      RiskArises(s, l, op);
      if !AtRisk(s, op) {
        assert s'.placement[op.key] == [s.dispatcher.phase.target];
      } else if PlacesLate(s, l, op.key) {
        assert s'.placement[op.key] == [s.writer.owner];
      } else {
        PlacementKept(s, l, op);
        var p :| op.key in s.placement && s.placement[op.key] == [p] && op.id in Db(s, p).applied;
        AppliedKept(s, l, op.id, p);
      }
    }
  }

  /**
   * A late placement of a row at risk keeps the placement pointing at the row if and only if the
   * provider it names has applied the op; before that any placement is harmless.
   */
  lemma LatePlacementExactly(s: State, op: WriteOp)
    requires Wf(s) && s.writer.WEnqueued? && s.writer.key == op.key && op in s.log
    ensures AtRisk(s, op) ==>
              AtRisk(Step(s, WPlace), op) &&
              (Settled(Step(s, WPlace), op) <==> op.id in Db(s, s.writer.owner).applied)
    ensures !AtRisk(s, op) ==> !AtRisk(Step(s, WPlace), op)
  {
    var s' := Step(s, WPlace);
    assert s'.placement[op.key] == [s.writer.owner];
    assert Db(s', s.writer.owner) == Db(s, s.writer.owner);
  }

  lemma {:induction false} RunKeepsSole(states: seq<State>, labels: seq<Label>, op: WriteOp, i: nat)
    requires Execution(states, labels) && AlwaysSafely(states, labels, op) && i < |states|
    requires op.kind == Insert && Sole(states[|labels|], op)
    ensures SoleInv(states[i], op)
  {
    if i > 0 {
      RunKeepsSole(states, labels, op, i - 1);
      assert Follows(states[i - 1], labels[i - 1], states[i]) && PlacesSafely(states[i - 1], labels[i - 1], op);
      RunKeepsWf(states, labels, i - 1);
      NoLostWrites.RunKeepsInv(states, labels, i - 1);
      RunKeepsStored(states, labels, op, i);
      StepKeepsSole(states[i - 1], labels[i - 1], op);
    }
  }

  /** From the moment the op is at risk, the placement points at a provider that has the row. */
  ghost predicate AlwaysSettled(states: seq<State>, op: WriteOp) {
    forall i | 0 <= i < |states| :: SoleInv(states[i], op)
  }

  /** A run always does so if and only if every late placement in it names a provider that has the row. */
  lemma SettledExactly(states: seq<State>, labels: seq<Label>, op: WriteOp)
    requires Execution(states, labels) && op.kind == Insert && Sole(states[|labels|], op)
    ensures AlwaysSettled(states, op) <==> AlwaysSafely(states, labels, op)
  {
    if AlwaysSafely(states, labels, op) {
      forall i | 0 <= i < |states| ensures SoleInv(states[i], op) {
        RunKeepsSole(states, labels, op, i);
      }
    }
    if AlwaysSettled(states, op) {
      forall i | 0 <= i < |labels| ensures PlacesSafely(states[i], labels[i], op) {
        assert Follows(states[i], labels[i], states[i + 1]) && SoleInv(states[i + 1], op);
        RunKeepsWf(states, labels, i);
        if PlacesLate(states[i], labels[i], op.key) && op in states[i].log {
          LatePlacementExactly(states[i], op);
        }
      }
    }
  }

  // ----- Every dispatched row is placed, somewhere -----

  ghost predicate Indexed(s: State, op: WriteOp) {
    && (AtRisk(s, op) ==> op.key in s.placement)
    && forall k | k in s.placement :: |s.placement[k]| == 1
  }

  lemma IndexedStep(s: State, l: Label, op: WriteOp)
    requires Wf(s) && NoLostWrites.Inv(s) && Indexed(s, op) && Enabled(s, l)
    ensures Indexed(Step(s, l), op)
  {
    if AtRisk(Step(s, l), op) {
      RiskArises(s, l, op);
    }
  }

  lemma {:induction false} RunKeepsIndexed(states: seq<State>, labels: seq<Label>, op: WriteOp, i: nat)
    requires Execution(states, labels) && i < |states|
    ensures Indexed(states[i], op)
  {
    if i > 0 {
      RunKeepsIndexed(states, labels, op, i - 1);
      assert Follows(states[i - 1], labels[i - 1], states[i]);
      RunKeepsWf(states, labels, i - 1);
      NoLostWrites.RunKeepsInv(states, labels, i - 1);
      IndexedStep(states[i - 1], labels[i - 1], op);
    }
  }

  // ----- The two regimes -----

  /** Either the set of providers is fixed, or it grows and writes are atomic. */
  ghost predicate Regime(states: seq<State>, labels: seq<Label>) {
    (exists members :: FixedRoster.Regime(labels, members)) || GrowingRoster.Regime(states, labels)
  }

  /** Both regimes place safely. */
  lemma RegimeIsSafe(states: seq<State>, labels: seq<Label>, op: WriteOp)
    requires Execution(states, labels) && Regime(states, labels) && op.kind == Insert && Sole(states[|labels|], op)
    ensures AlwaysSafely(states, labels, op)
  {
    SettledExactly(states, labels, op);
    forall i | 0 <= i < |states| ensures SoleInv(states[i], op) {
      RegimeKeepsSole(states, labels, op, i);
    }
  }

  /** In either regime a late placement names the provider that the index names already. */
  lemma RegimePlacesAlike(states: seq<State>, labels: seq<Label>, i: nat, k: Key)
    requires Execution(states, labels) && Regime(states, labels) && i < |labels|
    ensures PlacesLate(states[i], labels[i], k) && k in states[i].placement ==>
              states[i].placement[k] == [states[i].writer.owner]
  {
    if GrowingRoster.Regime(states, labels) {
      assert GrowingRoster.Allowed(states[i], labels[i]);
    } else {
      var members :| FixedRoster.Regime(labels, members);
      FixedRoster.RunKeepsInv(states, labels, members, i);
    }
  }

  lemma {:induction false} RegimeKeepsSole(states: seq<State>, labels: seq<Label>, op: WriteOp, i: nat)
    requires Execution(states, labels) && Regime(states, labels) && i < |states|
    requires op.kind == Insert && Sole(states[|labels|], op)
    ensures SoleInv(states[i], op)
  {
    if i > 0 {
      RegimeKeepsSole(states, labels, op, i - 1);
      var s, l := states[i - 1], labels[i - 1];
      assert Follows(s, l, states[i]);
      RunKeepsWf(states, labels, i - 1);
      NoLostWrites.RunKeepsInv(states, labels, i - 1);
      RunKeepsStored(states, labels, op, i);
      if PlacesLate(s, l, op.key) && AtRisk(s, op) {
        RegimePlacesAlike(states, labels, i - 1, op.key);
      }
      StepKeepsSole(s, l, op);
    }
  }

  /** Once dispatched, an op stays dispatched. */
  lemma {:induction false} StaysGone(states: seq<State>, labels: seq<Label>, op: WriteOp, i: nat, j: nat)
    requires Execution(states, labels) && i <= j < |states| && op in states[i].log && op !in states[i].buffer
    ensures op in states[j].log && op !in states[j].buffer
    decreases j
  {
    if i < j {
      StaysGone(states, labels, op, i, j - 1);
      var s, l := states[j - 1], labels[j - 1];
      assert Follows(s, l, states[j]);
      RunKeepsWf(states, labels, j - 1);
      if l.DDelete? || l.DDrop? {
        WithoutContents(s.buffer, s.dispatcher.queue[0].id);
      }
      if l.WEnqueue? {
        assert !Logged(s, s.writer.op.id);
      }
    }
  }

  ghost predicate SampledAfter(states: seq<State>, j: nat, attempts: seq<Attempt>) {
    forall a | a in attempts :: exists m :: j <= m < |states| && states[m] == a.at
  }

  /** What a provider answers for the row: the op's image exactly when it has applied it and the key is unmarked. */
  lemma QueryExactly(states: seq<State>, labels: seq<Label>, op: WriteOp, m: nat, p: string, pk: string)
    requires Execution(states, labels) && m < |states| && op.kind == Insert && Sole(states[|labels|], op)
    requires op in states[m].log && pk in op.payload && pk !in RESERVED && op.payload[pk] == Text(op.key.rowId)
    ensures QueryRow(states[m], p, op.key, pk) ==
              if op.id in Db(states[m], p).applied && !HasByteMarker(op.key.rowId) then [Image(op)] else []
  {
    RunKeepsStored(states, labels, op, m);
    if op.id in Db(states[m], p).applied {
      assert Holds(states[m], p, op.key);
    }
  }

  lemma SettledReplica(states: seq<State>, labels: seq<Label>, op: WriteOp, j: nat)
    requires Execution(states, labels) && AlwaysSafely(states, labels, op) && j < |states|
    requires op.kind == Insert && Sole(states[|labels|], op) && op in states[j].log && op !in states[j].buffer
    ensures op.key in states[j].placement && |states[j].placement[op.key]| == 1
    ensures forall m | j <= m < |states| :: op.id in Db(states[m], states[j].placement[op.key][0]).applied
  {
    RunKeepsSole(states, labels, op, j);
    assert AtRisk(states[j], op);
    var p :| op.key in states[j].placement && states[j].placement[op.key] == [p] && op.id in Db(states[j], p).applied;
    forall m | j <= m < |states| ensures op.id in Db(states[m], p).applied {
      AppliedStays(states, labels, j, m, p, op.id);
    }
  }

  /** The key column of the op's table, as the registry records it. */
  ghost function KeyColumn(s: State, op: WriteOp): string
    requires WellKeyed(s, op)
  {
    s.tables[op.key.table]
  }

  lemma LoggedIsKeyed(states: seq<State>, labels: seq<Label>, op: WriteOp, i: nat)
    requires Execution(states, labels) && i < |states| && op in states[i].log
    ensures WellKeyed(states[i], op)
  {
    RunKeepsWf(states, labels, i);
  }

  /** A row written by one INSERT and no other op is never missing: every point read that starts after
      the op was enqueued returns exactly the captured row (besides the reserved keys) or fails,
      whatever the writer, the dispatcher and the roster do between the read's own steps, as long
      as every late placement names a provider that has the row. */
  lemma InsertedRowIsRead(states: seq<State>, labels: seq<Label>, op: WriteOp,
                          i: nat, j: nat, attempts: seq<Attempt>)
    requires Execution(states, labels) && AlwaysSafely(states, labels, op) && i <= j < |states|
    requires op.kind == Insert && op in states[i].log && Sole(states[|labels|], op)
    requires !HasByteMarker(op.key.rowId)
    requires SampledAfter(states, j, attempts)
    requires op.key in states[j].placement ==> |attempts| == |states[j].placement[op.key]|
    ensures WellKeyed(states[i], op)
    ensures var r := PointRead(states[i], states[j], attempts, op.key, KeyColumn(states[i], op));
      r == NoProviders || (r.Rows? && |r.rows| == 1 && r.rows[0] - RESERVED == Image(op))
  {
    LoggedIsKeyed(states, labels, op, i);
    var pk := KeyColumn(states[i], op);
    RunKeepsWf(states, labels, i);
    RunKeepsStored(states, labels, op, i);
    SolePending(states[i].buffer, op);
    if op !in states[i].buffer {
      StaysGone(states, labels, op, i, j);
      SettledReplica(states, labels, op, j);
      var replicas := states[j].placement[op.key];
      assert attempts[0] in attempts;
      var m :| j <= m < |states| && states[m] == attempts[0].at;
      LogGrows(states, labels, j, m);
      QueryExactly(states, labels, op, m, replicas[0], pk);
      assert Image(op) - RESERVED == Image(op);
      assert TryReplicas(replicas[1..], attempts[1..], op.key, pk) == NoProviders;
    }
  }

  /** The provider that a point read of a dispatched row asks. */
  lemma PlacedSomewhere(states: seq<State>, labels: seq<Label>, op: WriteOp, i: nat, j: nat) returns (p: string)
    requires Execution(states, labels) && i <= j < |states| && op in states[i].log && op !in states[i].buffer
    ensures op.key in states[j].placement && states[j].placement[op.key] == [p]
  {
    StaysGone(states, labels, op, i, j);
    RunKeepsIndexed(states, labels, op, j);
    p := states[j].placement[op.key][0];
  }

  /** An answered read of a dispatched row, in any run at all: the row comes back if and only if the
      provider it is placed on has applied the op and the captured key has no byte marker. */
  lemma AnsweredExactly(states: seq<State>, labels: seq<Label>, op: WriteOp, i: nat, j: nat, m: nat)
    returns (p: string)
    requires Execution(states, labels) && i <= j <= m < |states|
    requires op.kind == Insert && op in states[i].log && op !in states[i].buffer && Sole(states[|labels|], op)
    requires op.key in states[j].placement ==> forall q | q in states[j].placement[op.key] :: q in states[m].roster
    ensures WellKeyed(states[i], op) && op.key in states[j].placement && states[j].placement[op.key] == [p]
    ensures PointRead(states[i], states[j], [Attempt(states[m], true)], op.key, KeyColumn(states[i], op)) ==
              Rows(if op.id in Db(states[m], p).applied && !HasByteMarker(op.key.rowId) then [Image(op)] else [])
  {
    p := PlacedSomewhere(states, labels, op, i, j);
    assert p in states[j].placement[op.key];
    LoggedIsKeyed(states, labels, op, i);
    RunKeepsWf(states, labels, i);
    RunKeepsStored(states, labels, op, i);
    SolePending(states[i].buffer, op);
    LogGrows(states, labels, i, m);
    QueryExactly(states, labels, op, m, p, KeyColumn(states[i], op));
  }

  /** A late placement hides the row: the writer chose its owner before a provider joined, and records
      it after the dispatcher has stored and placed the row elsewhere. */
  lemma LatePlacementHidesRow() returns (s: State)
    ensures RosterRaces.Reaches(s, RosterRaces.Atomicity)
    ensures var op := RosterRaces.Op("1");
      && op in s.log && Sole(s, op) && s.tables == map["t" := "id"] && !HasByteMarker(op.key.rowId)
      && s.placement == map[op.key := ["a"]]
      && PointRead(s, s, [Attempt(s, true)], op.key, "id") == Rows([])
  {
    var op := RosterRaces.Op("1");
    RosterRaces.HashMoves();
    s := RosterRaces.LateWriter();
    s := RosterRaces.Dispatch(s, RosterRaces.Atomicity, "b");
    s := RosterRaces.Settle(s, RosterRaces.Atomicity, op);
    s := RosterRaces.Then(s, RosterRaces.Atomicity, WPlace);
    assert s.placement == map[op.key := ["a"]];
  }
}
