/** Whole-table scans see every accepted row: the fan-out merge with the buffer laid over it is the
    table that results from all accepted writes in order. */
module OverlayScan {
  import opened Wrappers
  import opened Json
  import opened MeshProtocol
  import opened ProtocolShape
  import opened ReadEngine
  import PointReads
  import ReadYourInsert
  import NoLostWrites
  import FixedRoster
  import GrowingRoster

  /** The rows after a sequence of INSERTs, each replacing an earlier row of its key. */
  function Images(ops: seq<WriteOp>): map<Key, Row> {
    if ops == [] then map[] else Images(ops[..|ops| - 1])[ops[|ops| - 1].key := Image(ops[|ops| - 1])]
  }

  /** Only INSERTs are written and no apply fails. */
  predicate InOrder(l: Label) {
    (l.WChoose? || l.WWrite? ==> l.op.kind == Insert) && (l.DApply? ==> l.ok)
  }

  function Flushed(s: State): int {
    |s.log| - |s.buffer|
  }

  ghost predicate AppliedSomewhere(s: State, op: WriteOp) {
    exists p :: op.id in Db(s, p).applied
  }

  ghost function Stored(s: State): int {
    if s.buffer != [] && AppliedSomewhere(s, s.buffer[0]) then Flushed(s) + 1 else Flushed(s)
  }

  ghost predicate BufferIsTail(s: State) {
    && 0 <= Flushed(s) && s.buffer == s.log[Flushed(s)..]
    && (s.dispatcher.DDraining? ==> s.dispatcher.queue <= s.buffer)
    && (s.writer.WChosen? ==> s.writer.op.kind == Insert)
    && (forall op | op in s.log :: op.kind == Insert)
  }

  /** A provider that applied an op holds the op's row; only the head of the buffer may be applied. */
  ghost predicate AppliedShape(s: State) {
    && (forall op, p | op in s.log && op.id in Db(s, p).applied :: Holds(s, p, op.key))
    && (forall i | 1 <= i < |s.buffer| :: !AppliedSomewhere(s, s.buffer[i]))
  }

  /** Together the providers store exactly the images of the first `n` ops. */
  ghost predicate Stores(s: State, n: nat)
    requires n <= |s.log|
  {
    var rows := Images(s.log[..n]);
    && (forall p, k | Holds(s, p, k) :: k in rows && Db(s, p).rows[k] == rows[k])
    && (forall k | k in rows :: exists p :: Holds(s, p, k))
  }

  ghost predicate Inv(s: State) {
    BufferIsTail(s) && AppliedShape(s) && Stores(s, Stored(s))
  }

  /** The dispatcher sends an op where its row already is. */
  ghost predicate Agrees(s: State) {
    AtHead(s) && !s.dispatcher.phase.Next? ==>
      forall p | Holds(s, p, s.dispatcher.queue[0].key) :: p == s.dispatcher.phase.target
  }

  lemma ImagesSnoc(ops: seq<WriteOp>, op: WriteOp)
    ensures Images(ops + [op]) == Images(ops)[op.key := Image(op)]
  {
    assert (ops + [op])[..|ops|] == ops;
  }

  lemma FrameStores(s: State, s': State, n: nat)
    requires n <= |s.log| && n <= |s'.log| && s'.log[..n] == s.log[..n] && s'.providers == s.providers
    requires Stores(s, n)
    ensures Stores(s', n)
  {
    forall p, k | Holds(s', p, k) ensures k in Images(s'.log[..n]) && Db(s', p).rows[k] == Images(s'.log[..n])[k] {
      assert Holds(s, p, k);
    }
    forall k | k in Images(s'.log[..n]) ensures exists p :: Holds(s', p, k) {
      var p :| Holds(s, p, k);
      assert Holds(s', p, k);
    }
  }

  lemma SameApplied(s: State, s': State)
    requires s'.providers == s.providers
    ensures forall op :: AppliedSomewhere(s', op) <==> AppliedSomewhere(s, op)
    ensures forall p, k :: Holds(s', p, k) <==> Holds(s, p, k)
  {
    assert forall p :: Db(s', p) == Db(s, p);
  }

  lemma FrameAppliedShape(s: State, s': State)
    requires AppliedShape(s) && s'.providers == s.providers && s'.log == s.log
    requires s'.buffer == s.buffer || (s.buffer != [] && s'.buffer == s.buffer[1..])
    ensures AppliedShape(s')
  {
    SameApplied(s, s');
    forall i | 1 <= i < |s'.buffer| ensures !AppliedSomewhere(s', s'.buffer[i]) {
      var j := if s'.buffer == s.buffer then i else i + 1;
      assert s'.buffer[i] == s.buffer[j] && !AppliedSomewhere(s, s.buffer[j]);
    }
  }

  predicate Quiet(l: Label) {
    !l.WEnqueue? && !l.WWrite? && !l.DApply? && !l.DDelete? && !l.DDrop?
  }

  lemma QuietTail(s: State, l: Label)
    requires BufferIsTail(s) && Enabled(s, l) && InOrder(l) && Quiet(l)
    ensures BufferIsTail(Step(s, l))
  {
  }

  lemma QuietFrame(s: State, l: Label)
    requires Enabled(s, l) && Quiet(l)
    ensures Step(s, l).buffer == s.buffer && Step(s, l).log == s.log && Step(s, l).providers == s.providers
  {
  }

  lemma QuietKeepsInv(s: State, l: Label)
    requires Inv(s) && Enabled(s, l) && InOrder(l) && Quiet(l)
    ensures Inv(Step(s, l))
  {
    var s' := Step(s, l);
    QuietTail(s, l);
    QuietFrame(s, l);
    FrameAppliedShape(s, s');
    SameApplied(s, s');
    FrameStores(s, s', Stored(s));
  }

  lemma EnqueueTail(s: State)
    requires BufferIsTail(s) && s.writer.WChosen?
    ensures BufferIsTail(EnqueueStep(s)) && Flushed(EnqueueStep(s)) == Flushed(s)
  {
    var s' := EnqueueStep(s);
    assert s'.log[Flushed(s)..] == s.log[Flushed(s)..] + [s.writer.op];
  }

  lemma NewIsUnapplied(s: State)
    requires Wf(s) && s.writer.WChosen?
    ensures !AppliedSomewhere(s, s.writer.op)
  {
    assert !Logged(s, s.writer.op.id);
  }

  lemma EnqueueShape(s: State)
    requires AppliedShape(s) && s.writer.WChosen? && !AppliedSomewhere(s, s.writer.op)
    ensures AppliedShape(EnqueueStep(s))
  {
    var s' := EnqueueStep(s);
    SameApplied(s, s');
    forall op, p | op in s'.log && op.id in Db(s', p).applied ensures Holds(s', p, op.key) {
      assert AppliedSomewhere(s, op) && op in s.log;
    }
    forall i | 1 <= i < |s'.buffer| ensures !AppliedSomewhere(s', s'.buffer[i]) {
      assert i < |s.buffer| ==> s'.buffer[i] == s.buffer[i];
    }
  }

  lemma EnqueueStored(s: State)
    requires s.writer.WChosen? && !AppliedSomewhere(s, s.writer.op)
    ensures Stored(EnqueueStep(s)) == Stored(s)
  {
    var s' := EnqueueStep(s);
    SameApplied(s, s');
    assert s.buffer != [] ==> s'.buffer[0] == s.buffer[0];
  }

  lemma EnqueueKeepsInv(s: State)
    requires Wf(s) && Inv(s) && s.writer.WChosen?
    ensures Inv(EnqueueStep(s))
  {
    NewIsUnapplied(s);
    EnqueueTail(s);
    EnqueueShape(s);
    EnqueueStored(s);
    var s', n := EnqueueStep(s), Stored(s);
    assert n <= |s.log| && s'.log[..n] == s.log[..n];
    FrameStores(s, s', n);
  }

  lemma {:induction false} WithoutHead(ops: seq<WriteOp>)
    requires ops != [] && Distinct(ops)
    ensures Without(ops, ops[0].id) == ops[1..]
  {
    WithoutNone(ops[1..], ops[0].id);
  }

  lemma {:induction false} WithoutNone(ops: seq<WriteOp>, id: string)
    requires forall op | op in ops :: op.id != id
    ensures Without(ops, id) == ops
  {
    if ops != [] {
      WithoutNone(ops[1..], id);
    }
  }

  lemma DeleteTail(s: State, l: Label)
    requires Wf(s) && BufferIsTail(s) && Enabled(s, l) && l.DDelete?
    ensures s.buffer != [] && s.dispatcher.queue[0] == s.buffer[0] && Step(s, l).buffer == s.buffer[1..]
    ensures BufferIsTail(Step(s, l))
  {
    assert s.dispatcher.queue[0] == s.buffer[0];
    WithoutHead(s.buffer);
    assert s.buffer[1..] == s.log[Flushed(s) + 1..];
  }

  lemma HeadIsApplied(s: State)
    requires NoLostWrites.Inv(s) && AtHead(s) && s.dispatcher.phase.Placed?
    ensures AppliedSomewhere(s, s.dispatcher.queue[0])
  {
    assert s.dispatcher.queue[0].id in Db(s, s.dispatcher.phase.target).applied;
  }

  lemma DeleteStored(s: State, l: Label)
    requires Wf(s) && BufferIsTail(s) && AppliedShape(s) && Enabled(s, l) && l.DDelete?
    requires AppliedSomewhere(s, s.dispatcher.queue[0])
    ensures Stored(Step(s, l)) == Stored(s)
  {
    var s' := Step(s, l);
    DeleteTail(s, l);
    SameApplied(s, s');
    assert s'.buffer != [] ==> s'.buffer[0] == s.buffer[1];
  }

  lemma DeleteKeepsInv(s: State, l: Label)
    requires Wf(s) && Inv(s) && Enabled(s, l) && l.DDelete?
    requires AppliedSomewhere(s, s.dispatcher.queue[0])
    ensures Inv(Step(s, l))
  {
    DeleteTail(s, l);
    FrameAppliedShape(s, Step(s, l));
    DeleteStored(s, l);
    FrameStores(s, Step(s, l), Stored(s));
  }

  /** A first apply changes one cell: the target's row of the op's key. */
  lemma ApplyEffect(s: State, l: Label, p: string, k: Key)
    requires Enabled(s, l) && l.DApply? && l.ok && s.dispatcher.queue[0].kind == Insert
    requires s.dispatcher.queue[0].id !in Db(s, s.dispatcher.phase.target).applied
    ensures var op, hit := s.dispatcher.queue[0], p == s.dispatcher.phase.target && k == s.dispatcher.queue[0].key;
      && (Holds(Step(s, l), p, k) <==> hit || Holds(s, p, k))
      && (hit ==> Db(Step(s, l), p).rows[k] == Image(op))
      && (!hit && Holds(s, p, k) ==> Db(Step(s, l), p).rows[k] == Db(s, p).rows[k])
  {
  }

  /** The apply of an INSERT that no provider knows, on top of the images of the first `d` ops. */
  ghost predicate NewImage(s: State, l: Label, d: nat) {
    && Enabled(s, l) && l.DApply? && l.ok && d < |s.log| && Stores(s, d)
    && var op := s.dispatcher.queue[0];
      && op.kind == Insert && op.id !in Db(s, s.dispatcher.phase.target).applied
      && Images(s.log[..d + 1]) == Images(s.log[..d])[op.key := Image(op)]
  }

  lemma FirstApplyIsNew(s: State, l: Label)
    requires Inv(s) && Agrees(s) && Enabled(s, l) && l.DApply? && l.ok
    requires !AppliedSomewhere(s, s.dispatcher.queue[0])
    ensures NewImage(s, l, Flushed(s))
  {
    var op, d := s.dispatcher.queue[0], Flushed(s);
    assert op == s.buffer[0] == s.log[d];
    assert s.log[..d + 1] == s.log[..d] + [op];
    ImagesSnoc(s.log[..d], op);
  }

  lemma NewImageIsRight(s: State, l: Label, d: nat, p: string, k: Key)
    requires NewImage(s, l, d) && Agrees(s) && Holds(Step(s, l), p, k)
    ensures var after := Images(s.log[..d + 1]); k in after && Db(Step(s, l), p).rows[k] == after[k]
  {
    ApplyEffect(s, l, p, k);
  }

  lemma NewImageIsHeld(s: State, l: Label, d: nat, k: Key)
    requires NewImage(s, l, d) && k in Images(s.log[..d + 1])
    ensures exists p :: Holds(Step(s, l), p, k)
  {
    if k == s.dispatcher.queue[0].key {
      ApplyEffect(s, l, s.dispatcher.phase.target, k);
    } else {
      var p :| Holds(s, p, k);
      ApplyEffect(s, l, p, k);
    }
  }

  lemma NewImageStores(s: State, l: Label, d: nat)
    requires NewImage(s, l, d) && Agrees(s)
    ensures d < |Step(s, l).log| && Stores(Step(s, l), d + 1)
  {
    var s', after := Step(s, l), Images(s.log[..d + 1]);
    assert s'.log == s.log;
    forall p, k | Holds(s', p, k) ensures k in after && Db(s', p).rows[k] == after[k] {
      NewImageIsRight(s, l, d, p, k);
    }
    forall k | k in after ensures exists p :: Holds(s', p, k) {
      NewImageIsHeld(s, l, d, k);
    }
  }

  lemma FirstApply(s: State, l: Label)
    requires Inv(s) && Agrees(s) && Enabled(s, l) && l.DApply? && l.ok
    requires !AppliedSomewhere(s, s.dispatcher.queue[0])
    ensures Stores(Step(s, l), Flushed(s) + 1)
  {
    FirstApplyIsNew(s, l);
    NewImageStores(s, l, Flushed(s));
  }

  lemma Reapply(s: State, l: Label)
    requires Inv(s) && Agrees(s) && Enabled(s, l) && l.DApply? && l.ok
    requires AppliedSomewhere(s, s.dispatcher.queue[0])
    ensures forall q :: Db(Step(s, l), q) == Db(s, q)
  {
    var op := s.dispatcher.queue[0];
    assert op == s.buffer[0] && op in s.log;
    var p :| op.id in Db(s, p).applied;
    assert Holds(s, p, op.key) && p == s.dispatcher.phase.target;
  }

  lemma ApplyTail(s: State, l: Label)
    requires BufferIsTail(s) && Enabled(s, l) && l.DApply? && l.ok
    ensures BufferIsTail(Step(s, l)) && Step(s, l).log == s.log && Step(s, l).buffer == s.buffer
  {
  }

  /** The same databases, log and buffer. */
  lemma SameContents(s: State, s': State)
    requires s'.log == s.log && s'.buffer == s.buffer && forall q :: Db(s', q) == Db(s, q)
    ensures AppliedShape(s) ==> AppliedShape(s')
    ensures Stored(s') == Stored(s)
  {
    forall o ensures AppliedSomewhere(s', o) <==> AppliedSomewhere(s, o) {
      if p :| o.id in Db(s, p).applied {
        assert o.id in Db(s', p).applied;
      }
    }
    forall p, k ensures Holds(s', p, k) <==> Holds(s, p, k) {
      assert Db(s', p) == Db(s, p);
    }
  }

  lemma ReapplyKeepsInv(s: State, l: Label)
    requires Inv(s) && Agrees(s) && Enabled(s, l) && l.DApply? && l.ok
    requires AppliedSomewhere(s, s.dispatcher.queue[0])
    ensures Inv(Step(s, l))
  {
    var s' := Step(s, l);
    ApplyTail(s, l);
    Reapply(s, l);
    SameContents(s, s');
    SameStores(s, s', Stored(s));
  }

  lemma StoredAfter(s: State, l: Label)
    requires Enabled(s, l) && l.DApply? && l.ok && s.buffer != [] && s.dispatcher.queue[0] == s.buffer[0]
    ensures Stored(Step(s, l)) == Flushed(s) + 1
  {
    assert s.buffer[0].id in Db(Step(s, l), s.dispatcher.phase.target).applied;
  }

  lemma FirstApplyKeepsInv(s: State, l: Label)
    requires Wf(s) && Inv(s) && Agrees(s) && Enabled(s, l) && l.DApply? && l.ok
    requires !AppliedSomewhere(s, s.dispatcher.queue[0])
    ensures Inv(Step(s, l))
  {
    assert s.dispatcher.queue[0] == s.buffer[0];
    ApplyTail(s, l);
    StoredAfter(s, l);
    FirstApply(s, l);
    AppliedShapeAfter(s, l);
  }

  lemma ApplyKeepsInv(s: State, l: Label)
    requires Wf(s) && Inv(s) && Agrees(s) && Enabled(s, l) && l.DApply? && l.ok
    ensures Inv(Step(s, l))
  {
    if AppliedSomewhere(s, s.dispatcher.queue[0]) {
      ReapplyKeepsInv(s, l);
    } else {
      FirstApplyKeepsInv(s, l);
    }
  }

  lemma SameStores(s: State, s': State, n: nat)
    requires n <= |s.log| && s'.log == s.log && Stores(s, n) && forall q :: Db(s', q) == Db(s, q)
    ensures Stores(s', n)
  {
    forall p, k | Holds(s', p, k) ensures k in Images(s'.log[..n]) && Db(s', p).rows[k] == Images(s'.log[..n])[k] {
      assert Holds(s, p, k);
    }
    forall k | k in Images(s'.log[..n]) ensures exists p :: Holds(s', p, k) {
      var p :| Holds(s, p, k);
      assert Holds(s', p, k);
    }
  }

  lemma AppliedShapeAfter(s: State, l: Label)
    requires Wf(s) && Inv(s) && Enabled(s, l) && l.DApply? && l.ok
    requires !AppliedSomewhere(s, s.dispatcher.queue[0])
    ensures AppliedShape(Step(s, l))
  {
    var s' := Step(s, l);
    var op, target := s.dispatcher.queue[0], s.dispatcher.phase.target;
    assert op == s.buffer[0] && op in s.log && op.kind == Insert;
    forall o, p | o in s'.log && o.id in Db(s', p).applied ensures Holds(s', p, o.key) {
      if o.id in Db(s, p).applied {
        assert Holds(s, p, o.key);
      } else {
        SameId(s.log, o, op);
      }
    }
    forall i | 1 <= i < |s'.buffer| ensures !AppliedSomewhere(s', s'.buffer[i]) {
      assert !AppliedSomewhere(s, s.buffer[i]) && s.buffer[i].id != op.id;
      forall p ensures s.buffer[i].id !in Db(s', p).applied {
        assert s.buffer[i].id !in Db(s, p).applied;
      }
    }
  }

  lemma StepKeepsInv(s: State, l: Label)
    requires Wf(s) && NoLostWrites.Inv(s) && Inv(s) && Agrees(s) && Enabled(s, l) && InOrder(l)
    ensures Inv(Step(s, l))
  {
    if l.WEnqueue? {
      EnqueueKeepsInv(s);
    } else if l.WWrite? {
      var s1 := ChooseStep(s, l.op);
      WriterKeepsWf(s, WChoose(l.op));
      QuietKeepsInv(s, WChoose(l.op));
      EnqueueKeepsInv(s1);
      EnqueueKeepsWf(s1);
      QuietKeepsInv(EnqueueStep(s1), WPlace);
    } else if l.DApply? {
      ApplyKeepsInv(s, l);
    } else if l.DDelete? {
      HeadIsApplied(s);
      DeleteKeepsInv(s, l);
    } else {
      assert !l.DDrop?;
      QuietKeepsInv(s, l);
    }
  }

  /** Failure-free INSERT traffic under one of the two roster regimes. */
  ghost predicate Regime(states: seq<State>, labels: seq<Label>) {
    ReadYourInsert.Regime(states, labels) && forall l | l in labels :: InOrder(l)
  }

  lemma RegimeAgrees(states: seq<State>, labels: seq<Label>, i: nat)
    requires Execution(states, labels) && Regime(states, labels) && i < |states|
    ensures Agrees(states[i])
    ensures states[i].roster != [] ==> forall p, k | Holds(states[i], p, k) :: p in states[i].roster
  {
    if GrowingRoster.Regime(states, labels) {
      GrowingRoster.RunKeepsInv(states, labels, i);
    } else {
      var members :| FixedRoster.Regime(labels, members);
      FixedRoster.RunKeepsInv(states, labels, members, i);
      var s := states[i];
      if s.roster != [] {
        assert |multiset(members)| == |multiset(s.roster)|;
        forall p, k | Holds(s, p, k) ensures p in s.roster {
          assert p in members && p in multiset(members);
        }
      }
    }
  }

  lemma {:induction false} RunKeepsInv(states: seq<State>, labels: seq<Label>, i: nat)
    requires Execution(states, labels) && Regime(states, labels) && i < |states|
    ensures Inv(states[i])
  {
    if i > 0 {
      RunKeepsInv(states, labels, i - 1);
      OneStep(states, labels, i - 1, states[i - 1], labels[i - 1]);
    } else {
      StartInv();
    }
  }

  lemma OneStep(states: seq<State>, labels: seq<Label>, i: nat, s: State, l: Label)
    requires Execution(states, labels) && Regime(states, labels) && i < |labels| && s == states[i] && l == labels[i]
    requires Inv(s)
    ensures Inv(states[i + 1])
  {
    assert Follows(s, l, states[i + 1]) && InOrder(l);
    assert Wf(s) by {
      RunKeepsWf(states, labels, i);
    }
    assert NoLostWrites.Inv(s) by {
      NoLostWrites.RunKeepsInv(states, labels, i);
    }
    assert Agrees(s) by {
      RegimeAgrees(states, labels, i);
    }
    StepKeepsInv(s, l);
  }

  lemma StartIsEmpty(p: string)
    ensures Db(START, p).rows == map[] && Db(START, p).applied == {}
  {
  }

  lemma StartStores()
    ensures Stores(START, 0)
  {
    assert START.log[..0] == [] && Images([]) == map[];
    forall p, k ensures !Holds(START, p, k) {
      StartIsEmpty(p);
    }
  }

  lemma StartInv()
    ensures Inv(START)
  {
    StartStores();
    assert START.buffer == [] && START.log == [] && Stored(START) == 0;
    assert BufferIsTail(START);
    assert AppliedShape(START);
  }

  /** The rows of one table in a provider's database, by row id. */
  function TableRows(db: ProviderDb, table: string): map<string, Row> {
    map k | k in db.rows && k.table == table :: k.rowId := db.rows[k]
  }

  lemma PendingSnoc(buffer: seq<WriteOp>, op: WriteOp, table: string)
    requires op.kind == Insert
    ensures PointReads.PendingRows(buffer + [op], table) ==
            if op.key.table == table
            then PointReads.PendingRows(buffer, table)[op.key.rowId := op.payload]
            else PointReads.PendingRows(buffer, table)
  {
    assert (buffer + [op])[..|buffer|] == buffer;
  }

  /** A buffered row shows its latest image. */
  lemma {:induction false} LayerPending(flushed: seq<WriteOp>, buffer: seq<WriteOp>, k: Key)
    requires forall op | op in buffer :: op.kind == Insert
    requires k.rowId in PointReads.PendingRows(buffer, k.table)
    ensures k in Images(flushed + buffer)
    ensures Images(flushed + buffer)[k] == PointReads.PendingRows(buffer, k.table)[k.rowId] - RESERVED
  {
    var init, last := buffer[..|buffer| - 1], buffer[|buffer| - 1];
    assert last in buffer && buffer == init + [last];
    assert flushed + buffer == flushed + init + [last];
    PendingSnoc(init, last, k.table);
    ImagesSnoc(flushed + init, last);
    if last.key != k {
      LayerPending(flushed, init, k);
    }
  }

  /** A row without buffered ops shows its flushed image. */
  lemma {:induction false} LayerFlushed(flushed: seq<WriteOp>, buffer: seq<WriteOp>, k: Key)
    requires forall op | op in buffer :: op.kind == Insert
    requires k.rowId !in PointReads.PendingRows(buffer, k.table)
    ensures k in Images(flushed + buffer) <==> k in Images(flushed)
    ensures k in Images(flushed) ==> Images(flushed + buffer)[k] == Images(flushed)[k]
    ensures forall op | op in buffer :: op.key != k
  {
    if buffer == [] {
      assert flushed + buffer == flushed;
    } else {
      var init, last := buffer[..|buffer| - 1], buffer[|buffer| - 1];
      assert last in buffer && buffer == init + [last];
      assert flushed + buffer == flushed + init + [last];
      PendingSnoc(init, last, k.table);
      assert last.key != k;
      ImagesSnoc(flushed + init, last);
      LayerFlushed(flushed, init, k);
    }
  }

  /** Laying the buffered images over the flushed ones gives the images of the whole log. */
  lemma Layer(flushed: seq<WriteOp>, buffer: seq<WriteOp>, k: Key)
    requires forall op | op in buffer :: op.kind == Insert
    ensures var pending := PointReads.PendingRows(buffer, k.table);
      if k.rowId in pending
      then k in Images(flushed + buffer) && Images(flushed + buffer)[k] == pending[k.rowId] - RESERVED
      else k in Images(flushed + buffer) <==> k in Images(flushed)
    ensures k.rowId !in PointReads.PendingRows(buffer, k.table) && k in Images(flushed) ==>
              Images(flushed + buffer)[k] == Images(flushed)[k]
    ensures k.rowId !in PointReads.PendingRows(buffer, k.table) ==> forall op | op in buffer :: op.key != k
  {
    if k.rowId in PointReads.PendingRows(buffer, k.table) {
      LayerPending(flushed, buffer, k);
    } else {
      LayerFlushed(flushed, buffer, k);
    }
  }

  lemma {:induction false} ImagesClean(ops: seq<WriteOp>, k: Key)
    requires k in Images(ops)
    ensures Images(ops)[k] - RESERVED == Images(ops)[k]
  {
    var init, last := ops[..|ops| - 1], ops[|ops| - 1];
    if last.key != k {
      ImagesClean(init, k);
    }
  }

  /** `Layer` for a reachable state: what is buffered, and what was flushed. */
  lemma LogLayers(s: State, k: Key)
    requires Inv(s)
    ensures var pending := PointReads.PendingRows(s.buffer, k.table);
      if k.rowId in pending
      then k in Images(s.log) && Images(s.log)[k] == pending[k.rowId] - RESERVED
      else
        && (k in Images(s.log) <==> k in Images(s.log[..Flushed(s)]))
        && (k in Images(s.log) ==> Images(s.log)[k] == Images(s.log[..Flushed(s)])[k])
        && (s.buffer != [] ==> s.buffer[0].key != k)
  {
    forall op | op in s.buffer ensures op.kind == Insert {
      assert op in s.log;
    }
    Layer(s.log[..Flushed(s)], s.buffer, k);
    assert s.log[..Flushed(s)] + s.buffer == s.log;
    if s.buffer != [] {
      assert s.buffer[0] in s.buffer;
    }
  }

  /** The head of the buffer does not change the image of another row. */
  lemma HeadElsewhere(s: State, k: Key)
    requires Inv(s) && (s.buffer != [] ==> s.buffer[0].key != k)
    ensures k in Images(s.log[..Stored(s)]) <==> k in Images(s.log[..Flushed(s)])
    ensures k in Images(s.log[..Stored(s)]) ==> Images(s.log[..Stored(s)])[k] == Images(s.log[..Flushed(s)])[k]
  {
    var d := Flushed(s);
    if Stored(s) == d + 1 {
      assert s.log[..d + 1] == s.log[..d] + [s.log[d]];
      ImagesSnoc(s.log[..d], s.log[d]);
      assert s.log[d] == s.buffer[0];
    }
  }

  ghost predicate NoDelete(labels: seq<Label>, a: nat, b: nat)
    requires b <= |labels|
  {
    forall i | a <= i < b :: !labels[i].DDelete?
  }

  /** No step but a delete moves the flush point, and INSERTs take no row away. */
  lemma WindowStep(s: State, l: Label, p: string, k: Key)
    requires BufferIsTail(s) && Enabled(s, l) && !l.DDelete? && !l.DDrop?
    ensures Flushed(Step(s, l)) == Flushed(s)
    ensures Holds(s, p, k) ==> Holds(Step(s, l), p, k)
  {
    if l.DApply? {
      assert s.dispatcher.queue[0] in s.dispatcher.queue && s.dispatcher.queue[0] in s.log;
    }
  }

  lemma {:induction false} WindowKeeps(states: seq<State>, labels: seq<Label>, a: nat, m: nat, p: string, k: Key)
    requires Execution(states, labels) && Regime(states, labels) && a <= m < |states| && NoDelete(labels, a, m)
    ensures Flushed(states[m]) == Flushed(states[a])
    ensures Holds(states[a], p, k) ==> Holds(states[m], p, k)
    decreases m
  {
    if a < m {
      WindowKeeps(states, labels, a, m - 1, p, k);
      var s, l := states[m - 1], labels[m - 1];
      assert Follows(s, l, states[m]) && l in labels;
      assert BufferIsTail(s) by {
        RunKeepsInv(states, labels, m - 1);
      }
      assert !l.DDrop? by {
        NoLostWrites.DropBranchUnreachable(states, labels);
      }
      WindowStep(s, l, p, k);
    }
  }

  /** Inside the window a provider's copy of a row without buffered ops is the flushed image. */
  lemma SampleRow(states: seq<State>, labels: seq<Label>, a: nat, m: nat, b: nat, p: string, k: Key)
    requires Execution(states, labels) && Regime(states, labels) && a <= m <= b < |states| && NoDelete(labels, a, b)
    requires Holds(states[m], p, k) && k.rowId !in PointReads.PendingRows(states[b].buffer, k.table)
    ensures 0 <= Flushed(states[b]) && k in Images(states[b].log[..Flushed(states[b])])
    ensures Db(states[m], p).rows[k] == Images(states[b].log[..Flushed(states[b])])[k]
  {
    WindowKeeps(states, labels, m, b, p, k);
    RunKeepsInv(states, labels, m);
    RunKeepsInv(states, labels, b);
    LogGrows(states, labels, m, b);
    var d, sm, sb := Flushed(states[b]), states[m], states[b];
    LogLayers(sb, k);
    assert sm.log[..d] == sb.log[..d];
    assert sm.buffer != [] ==> sm.buffer[0] == sm.log[d] == sb.log[d] == sb.buffer[0];
    HeadElsewhere(sm, k);
  }

  /** A row that was flushed before the window is found wherever it was held. */
  lemma FlushedIsHeld(states: seq<State>, labels: seq<Label>, a: nat, b: nat, k: Key) returns (p: string)
    requires Execution(states, labels) && Regime(states, labels) && a <= b < |states| && NoDelete(labels, a, b)
    requires 0 <= Flushed(states[b]) && k in Images(states[b].log[..Flushed(states[b])])
    ensures forall m | a <= m <= b :: Holds(states[m], p, k)
    ensures states[a].roster != [] ==> p in states[a].roster
  {
    var d := Flushed(states[b]);
    WindowKeeps(states, labels, a, b, "", k);
    RunKeepsInv(states, labels, a);
    RegimeAgrees(states, labels, a);
    LogGrows(states, labels, a, b);
    var sa := states[a];
    assert sa.log[..d] == states[b].log[..d];
    if Stored(sa) == d + 1 {
      assert sa.log[..d + 1] == sa.log[..d] + [sa.log[d]];
      ImagesSnoc(sa.log[..d], sa.log[d]);
    }
    assert k in Images(sa.log[..Stored(sa)]);
    p :| Holds(sa, p, k);
    forall m | a <= m <= b ensures Holds(states[m], p, k) {
      WindowKeeps(states, labels, a, m, p, k);
    }
  }

  /** What the fan-out collected: provider `roster[i]` listed its rows of the table as they were in
      state `samples[i]`, in any order. */
  ghost predicate Collected(states: seq<State>, a: nat, b: nat, table: string, pk: string,
                            roster: seq<string>, samples: seq<nat>, answers: seq<Answer>)
  {
    && |samples| == |roster| == |answers| && a <= b < |states|
    && forall i | 0 <= i < |roster| ::
         && a <= samples[i] <= b && answers[i].Some?
         && ByKey(answers[i].value, pk) == Keyed(TableRows(Db(states[samples[i]], roster[i]), table), [], true)
  }

  lemma {:induction false} AnsweredRow(answers: seq<Answer>, row: Row) returns (i: nat)
    requires row in Answered(answers)
    ensures i < |answers| && answers[i].Some? && row in answers[i].value
  {
    var n := |answers| - 1;
    if row in Answered(answers[..n]) {
      i := AnsweredRow(answers[..n], row);
    } else {
      i := n;
    }
  }

  lemma {:induction false} RowAnswered(answers: seq<Answer>, i: nat, row: Row)
    requires i < |answers| && answers[i].Some? && row in answers[i].value
    ensures row in Answered(answers)
  {
    var n := |answers| - 1;
    if i < n {
      RowAnswered(answers[..n], i, row);
    }
  }

  /** The merged index holds a key exactly when some answer lists it, with a row some answer lists for it. */
  lemma MergedKey(answers: seq<Answer>, pk: string, r: string)
    requires forall i | 0 <= i < |answers| :: answers[i].Some? && ByKey(answers[i].value, pk).unique
    ensures r in ByKey(Answered(answers), pk).index ==>
              exists i :: 0 <= i < |answers| && r in ByKey(answers[i].value, pk).index &&
                          ByKey(answers[i].value, pk).index[r] == ByKey(Answered(answers), pk).index[r]
    ensures forall i | 0 <= i < |answers| && r in ByKey(answers[i].value, pk).index ::
              r in ByKey(Answered(answers), pk).index
  {
    ByKeyContents(Answered(answers), pk);
    if r in ByKey(Answered(answers), pk).index {
      var row := ByKey(Answered(answers), pk).index[r];
      var i := AnsweredRow(answers, row);
      UniqueLookup(answers[i].value, row, pk);
    }
    forall i | 0 <= i < |answers| && r in ByKey(answers[i].value, pk).index
      ensures r in ByKey(Answered(answers), pk).index
    {
      ByKeyContents(answers[i].value, pk);
      RowAnswered(answers, i, ByKey(answers[i].value, pk).index[r]);
    }
  }

  /** A listed row without buffered ops is the flushed image. */
  lemma ListedIsFlushed(states: seq<State>, labels: seq<Label>, a: nat, b: nat, table: string, pk: string,
                        samples: seq<nat>, answers: seq<Answer>, r: string)
    requires Execution(states, labels) && Regime(states, labels) && a <= b < |states| && NoDelete(labels, a, b)
    requires Collected(states, a, b, table, pk, states[a].roster, samples, answers)
    requires r !in PointReads.PendingRows(states[b].buffer, table) && r in ByKey(Answered(answers), pk).index
    ensures 0 <= Flushed(states[b]) && Key(table, r) in Images(states[b].log[..Flushed(states[b])])
    ensures ByKey(Answered(answers), pk).index[r] == Images(states[b].log[..Flushed(states[b])])[Key(table, r)]
  {
    MergedKey(answers, pk, r);
    var i :| 0 <= i < |answers| && r in ByKey(answers[i].value, pk).index &&
             ByKey(answers[i].value, pk).index[r] == ByKey(Answered(answers), pk).index[r];
    var p, m := states[a].roster[i], samples[i];
    assert r in TableRows(Db(states[m], p), table);
    SampleRow(states, labels, a, m, b, p, Key(table, r));
  }

  /** A flushed row is listed. */
  lemma FlushedIsListed(states: seq<State>, labels: seq<Label>, a: nat, b: nat, table: string, pk: string,
                        samples: seq<nat>, answers: seq<Answer>, r: string)
    requires Execution(states, labels) && Regime(states, labels) && a <= b < |states| && NoDelete(labels, a, b)
    requires states[a].roster != [] && Collected(states, a, b, table, pk, states[a].roster, samples, answers)
    requires 0 <= Flushed(states[b]) && Key(table, r) in Images(states[b].log[..Flushed(states[b])])
    ensures r in ByKey(Answered(answers), pk).index
  {
    var p := FlushedIsHeld(states, labels, a, b, Key(table, r));
    var i :| 0 <= i < |states[a].roster| && states[a].roster[i] == p;
    assert Holds(states[samples[i]], p, Key(table, r));
    assert r in TableRows(Db(states[samples[i]], p), table);
    MergedKey(answers, pk, r);
    assert r in ByKey(answers[i].value, pk).index;
  }

  lemma ScanRow(states: seq<State>, labels: seq<Label>, a: nat, b: nat, table: string, pk: string,
                samples: seq<nat>, answers: seq<Answer>, r: string)
    requires Execution(states, labels) && Regime(states, labels) && a <= b < |states| && NoDelete(labels, a, b)
    requires states[a].roster != [] && Collected(states, a, b, table, pk, states[a].roster, samples, answers)
    ensures var k := Key(table, r);
      var index := ByKey(Answered(answers), pk).index + PointReads.PendingRows(states[b].buffer, table);
      && (r in index <==> k in Images(states[b].log))
      && (r in index ==> index[r] - RESERVED == Images(states[b].log)[k])
  {
    RunKeepsInv(states, labels, b);
    LogLayers(states[b], Key(table, r));
    if r !in PointReads.PendingRows(states[b].buffer, table) {
      if r in ByKey(Answered(answers), pk).index {
        ListedIsFlushed(states, labels, a, b, table, pk, samples, answers, r);
      }
      if Key(table, r) in Images(states[b].log) {
        FlushedIsListed(states, labels, a, b, table, pk, samples, answers, r);
        ImagesClean(states[b].log, Key(table, r));
      }
    }
  }

  lemma NothingKeyless(answers: seq<Answer>, pk: string)
    requires forall i | 0 <= i < |answers| :: answers[i].Some? && ByKey(answers[i].value, pk).extra == []
    ensures ByKey(Answered(answers), pk).extra == []
  {
    ByKeyContents(Answered(answers), pk);
    if ByKey(Answered(answers), pk).extra != [] {
      var row := ByKey(Answered(answers), pk).extra[0];
      assert row in ByKey(Answered(answers), pk).extra;
      var i := AnsweredRow(answers, row);
      ByKeyContents(answers[i].value, pk);
      assert false;
    }
  }

  /** An unfiltered scan over all providers, each sampled at its own moment, with the buffer read last
      and no op deleted meanwhile, lists the logical table: one row per key, and for each key the latest
      accepted image. `rows` is any list that `ReadEngine.FanoutRead` returns for these answers. */
  lemma ScanIsLogicalTable(states: seq<State>, labels: seq<Label>, a: nat, b: nat, table: string, pk: string,
                           samples: seq<nat>, answers: seq<Answer>, rows: seq<Row>)
    requires Execution(states, labels) && Regime(states, labels) && a <= b < |states| && NoDelete(labels, a, b)
    requires states[a].roster != [] && Collected(states, a, b, table, pk, states[a].roster, samples, answers)
    requires var all := ByKey(Answered(answers), pk);
      ByKey(rows, pk) ==
        Keyed(all.index + PointReads.PendingRows(states[b].buffer, table), all.extra, true)
    ensures KeysDiffer(rows, pk) && forall row | row in rows :: RowKey(row, pk).Some?
    ensures forall r :: r in ByKey(rows, pk).index <==> Key(table, r) in Images(states[b].log)
    ensures forall row | row in rows ::
              var k := Key(table, RowKey(row, pk).value);
              k in Images(states[b].log) && row - RESERVED == Images(states[b].log)[k]
  {
    UniqueKeys(rows, pk);
    NothingKeyless(answers, pk);
    ByKeyContents(rows, pk);
    forall r ensures r in ByKey(rows, pk).index <==> Key(table, r) in Images(states[b].log) {
      ScanRow(states, labels, a, b, table, pk, samples, answers, r);
    }
    forall row | row in rows
      ensures RowKey(row, pk).Some? &&
              var k := Key(table, RowKey(row, pk).value);
              k in Images(states[b].log) && row - RESERVED == Images(states[b].log)[k]
    {
      assert row !in ByKey(rows, pk).extra;
      UniqueLookup(rows, row, pk);
      ScanRow(states, labels, a, b, table, pk, samples, answers, RowKey(row, pk).value);
    }
  }
}
