/** The gateway's tasks as they run: each central-store or provider call is one step of
    `MeshProtocol`, and the other tasks may take any of their steps in between. */
module Gateway {
  import opened Wrappers
  import opened Basics
  import opened Json
  import opened Registry
  import opened MeshProtocol
  import opened ProtocolShape
  import opened PointReads
  import opened ReadYourInsert
  import NoLostWrites
  import ReadEngine

  datatype TickOutcome = Idle | Stopped | Drained(batch: seq<WriteOp>)

  datatype WriteOutcome = Accepted | Refused | Interrupted

  ghost predicate WasSent(s: State, op: WriteOp) {
    exists p :: (op, p) in s.sent
  }

  ghost predicate AllSent(s: State, ops: seq<WriteOp>) {
    forall op | op in ops :: WasSent(s, op)
  }

  lemma SentStays(s: State, s': State, ops: seq<WriteOp>)
    requires AllSent(s, ops) && s.sent <= s'.sent
    ensures AllSent(s', ops)
  {
    forall op | op in ops ensures WasSent(s', op) {
      assert WasSent(s, op);
    }
  }

  lemma OneMoreSent(s: State, s': State, batch: seq<WriteOp>, done: nat)
    requires done < |batch| && AllSent(s, batch[..done]) && s.sent <= s'.sent && WasSent(s', batch[done])
    ensures AllSent(s', batch[..done + 1])
  {
    SentStays(s, s', batch[..done]);
    assert batch[..done + 1] == batch[..done] + [batch[done]];
  }

  /** The placement in `now` is the owner that `select_owner` picks for the op in `s`. */
  ghost predicate PlacedByChoice(s: State, op: WriteOp, now: State) {
    && s.roster != [] && op.key in now.placement
    && now.placement[op.key] == [SelectOwner(op.key.rowId, s.roster, Existing(s, op.key)).value]
  }

  datatype Task = TheDispatcher | TheWriter | TheReader

  /** Which task takes a step. Roster polls, DDL and reads belong to none of these. */
  predicate By(task: Task, l: Label) {
    match task
    case TheDispatcher =>
      l.DSnapshot? || l.DTake? || l.DDrop? || l.DChoose? || l.DApply? || l.DPlace? || l.DDelete? || l.DAbort?
    case TheWriter => l.WChoose? || l.WEnqueue? || l.WPlace? || l.WAbort? || l.WWrite?
    case TheReader => false
  }

  /** Steps of other tasks leave the dispatcher where it is and only append to the buffer. */
  lemma {:induction false} QuietDispatcher(states: seq<State>, labels: seq<Label>, a: nat, b: nat)
    requires Execution(states, labels) && a <= b <= |labels|
    requires forall i | a <= i < b :: !By(TheDispatcher, labels[i])
    ensures states[b].dispatcher == states[a].dispatcher
    ensures states[a].buffer <= states[b].buffer && states[a].sent <= states[b].sent
    decreases b
  {
    if a < b {
      QuietDispatcher(states, labels, a, b - 1);
      assert Follows(states[b - 1], labels[b - 1], states[b]);
    }
  }

  lemma {:induction false} QuietWriter(states: seq<State>, labels: seq<Label>, a: nat, b: nat)
    requires Execution(states, labels) && a <= b <= |labels|
    requires forall i | a <= i < b :: !By(TheWriter, labels[i])
    ensures states[b].writer == states[a].writer && states[b].log == states[a].log
    decreases b
  {
    if a < b {
      QuietWriter(states, labels, a, b - 1);
      assert Follows(states[b - 1], labels[b - 1], states[b]);
    }
  }

  /** None of these replicas gave an answer. */
  ghost predicate Skipped(replicas: seq<string>, attempts: seq<Attempt>) {
    |attempts| <= |replicas| &&
    forall i | 0 <= i < |attempts| :: !(replicas[i] in attempts[i].at.roster && attempts[i].answered)
  }

  lemma {:induction false} SkipTo(replicas: seq<string>, attempts: seq<Attempt>, n: nat, k: Key, pk: string)
    requires |attempts| == |replicas| && n <= |replicas| && Skipped(replicas, attempts[..n])
    ensures TryReplicas(replicas, attempts, k, pk) == TryReplicas(replicas[n..], attempts[n..], k, pk)
  {
    if n > 0 {
      assert attempts[..n][0] == attempts[0];
      assert attempts[1..][..n - 1] == attempts[..n][1..];
      SkipTo(replicas[1..], attempts[1..], n - 1, k, pk);
      assert replicas[1..][n - 1..] == replicas[n..] && attempts[1..][n - 1..] == attempts[n..];
    }
  }

  /** Every op of `ops` was accepted and has left the buffer. */
  ghost predicate AllGone(s: State, ops: seq<WriteOp>) {
    forall op | op in ops :: op in s.log && op !in s.buffer
  }

  lemma GoneStays(states: seq<State>, labels: seq<Label>, ops: seq<WriteOp>, a: nat, b: nat)
    requires Execution(states, labels) && a <= b < |states| && AllGone(states[a], ops)
    ensures AllGone(states[b], ops)
  {
    forall op | op in ops ensures op in states[b].log && op !in states[b].buffer {
      StaysGone(states, labels, op, a, b);
    }
  }

  lemma OneMoreGone(states: seq<State>, labels: seq<Label>, batch: seq<WriteOp>, done: nat, a: nat, b: nat)
    requires Execution(states, labels) && a <= b < |states|
    requires done < |batch| && AllGone(states[a], batch[..done]) && AllGone(states[b], [batch[done]])
    ensures AllGone(states[b], batch[..done + 1])
  {
    GoneStays(states, labels, batch[..done], a, b);
    assert batch[done] in [batch[done]];
    assert batch[..done + 1] == batch[..done] + [batch[done]];
  }

  lemma HeadIsLogged(states: seq<State>, labels: seq<Label>)
    requires Execution(states, labels) && AtHead(states[|labels|])
    ensures states[|labels|].dispatcher.queue[0] in states[|labels|].log
  {
    RunKeepsWf(states, labels, |labels|);
    assert states[|labels|].dispatcher.queue[0] in states[|labels|].dispatcher.queue;
  }

  /** The gateway does not accept a write of the op. */
  predicate Refuses(s: State, op: WriteOp) {
    op.key.table !in s.tables || s.roster == [] || !WellKeyed(s, op)
  }

  /** None of these replicas was on the roster when its turn came. */
  ghost predicate AllAway(replicas: seq<string>, attempts: seq<Attempt>) {
    |attempts| == |replicas| && forall i | 0 <= i < |replicas| :: replicas[i] !in attempts[i].at.roster
  }

  /** In one of these states one of these replicas was on the roster and answered with these rows. */
  ghost predicate RepliedBy(states: seq<State>, replicas: seq<string>, k: Key, pk: string, rows: seq<Row>) {
    exists p, s | p in replicas && s in states :: AnswersWith(s, p, k, pk, rows)
  }

  /** Each of these replicas was off the roster in one of these states. */
  ghost predicate AwayAtTimes(states: seq<State>, replicas: seq<string>) {
    forall p | p in replicas :: exists s | s in states :: p !in s.roster
  }

  lemma SampledIn(states: seq<State>, j: nat, attempts: seq<Attempt>, i: nat)
    requires SampledAfter(states, j, attempts) && i < |attempts| && j <= |states|
    ensures attempts[i].at in states[j..]
  {
    assert attempts[i] in attempts;
    var m :| j <= m < |states| && states[m] == attempts[i].at;
    assert states[j..][m - j] == attempts[i].at;
  }

  /** Another sample, taken when the run has gone on. */
  lemma SampledMore(before: seq<State>, states: seq<State>, j: nat, attempts: seq<Attempt>, attempt: Attempt)
    requires before <= states && states != [] && j < |states| && SampledAfter(before, j, attempts)
    requires attempt.at == states[|states| - 1]
    ensures SampledAfter(states, j, attempts + [attempt])
  {
    forall a | a in attempts + [attempt] ensures exists m :: j <= m < |states| && states[m] == a.at {
      if a in attempts {
        var m :| j <= m < |before| && before[m] == a.at;
        assert states[m] == a.at;
      } else {
        assert states[|states| - 1] == a.at;
      }
    }
  }

  /** The attempts, with the last one standing for those that were not made any more. */
  function Filled(attempts: seq<Attempt>, n: nat): seq<Attempt>
    requires attempts != []
  {
    if |attempts| >= n then attempts else attempts + seq(n - |attempts|, _ => attempts[|attempts| - 1])
  }

  lemma SampledFill(states: seq<State>, j: nat, attempts: seq<Attempt>, n: nat)
    requires attempts != [] && SampledAfter(states, j, attempts)
    ensures SampledAfter(states, j, Filled(attempts, n))
  {
    assert attempts[|attempts| - 1] in attempts;
    forall a | a in Filled(attempts, n) ensures a in attempts {
    }
  }

  lemma RepliesMean(states: seq<State>, j: nat, replicas: seq<string>, attempts: seq<Attempt>, k: Key, pk: string)
    requires |attempts| == |replicas| && j <= |states| && SampledAfter(states, j, attempts)
    ensures var r := TryReplicas(replicas, attempts, k, pk); r.Rows? ==> RepliedBy(states[j..], replicas, k, pk, r.rows)
    ensures AllAway(replicas, attempts) ==> AwayAtTimes(states[j..], replicas)
  {
    RepliesExactly(replicas, attempts, k, pk);
    var r := TryReplicas(replicas, attempts, k, pk);
    if r.Rows? {
      var i :| 0 <= i < |replicas| && FirstReply(replicas, attempts, i) &&
               AnswersWith(attempts[i].at, replicas[i], k, pk, r.rows);
      SampledIn(states, j, attempts, i);
    }
    if AllAway(replicas, attempts) {
      forall p | p in replicas ensures exists s | s in states[j..] :: p !in s.roster {
        var i :| 0 <= i < |replicas| && replicas[i] == p;
        SampledIn(states, j, attempts, i);
      }
    }
  }

  lemma SoleInsertsAreRead(states: seq<State>, labels: seq<Label>, k: Key, pk: string, i: nat, j: nat,
                           attempts: seq<Attempt>)
    requires Execution(states, labels) && i <= j < |states| && SampledAfter(states, j, attempts)
    requires k.table in states[i].tables && states[i].tables[k.table] == pk
    requires k in states[j].placement ==> |attempts| == |states[j].placement[k]|
    ensures var r := PointRead(states[i], states[j], attempts, k, pk);
      forall op | op in states[i].log && op.kind == Insert && op.key == k && !HasByteMarker(k.rowId) &&
                  Sole(states[|labels|], op) && AlwaysSafely(states, labels, op) ::
        r == NoProviders || (r.Rows? && |r.rows| == 1 && r.rows[0] - RESERVED == Image(op))
  {
    forall op | op in states[i].log && op.kind == Insert && op.key == k && !HasByteMarker(k.rowId) &&
                Sole(states[|labels|], op) && AlwaysSafely(states, labels, op)
      ensures var r := PointRead(states[i], states[j], attempts, k, pk);
        r == NoProviders || (r.Rows? && |r.rows| == 1 && r.rows[0] - RESERVED == Image(op))
    {
      InsertedRowIsRead(states, labels, op, i, j, attempts);
    }
  }

  /** What the fallback of a point read makes of the providers' answers. */
  ghost predicate Anywhere(roster: seq<string>, samples: seq<Attempt>, k: Key, pk: string,
                           r: Result<ReadEngine.ReadResult, ReadEngine.ReadError>)
    requires |samples| == |roster|
  {
    && (r.Failure? <==> forall i | 0 <= i < |roster| :: !samples[i].answered)
    && (r.Success? ==>
      && (r.value.partial <==> exists i | 0 <= i < |roster| :: !samples[i].answered)
      && (r.value.rows == [] <==> forall i | 0 <= i < |roster| && samples[i].answered ::
            QueryRow(samples[i].at, roster[i], k, pk) == [])
      && forall i | 0 <= i < |roster| && FirstHit(roster, samples, k, pk, i) ::
            r.value.rows == QueryRow(samples[i].at, roster[i], k, pk))
  }

  lemma AnywhereIs(roster: seq<string>, samples: seq<Attempt>, k: Key, pk: string,
                   r: Result<ReadEngine.ReadResult, ReadEngine.ReadError>)
    requires |samples| == |roster|
    requires var answers := AnswersAt(roster, samples, k);
      && (r.Failure? <==> forall a | a in answers :: a == None)
      && (r.Success? ==> (r.value.partial <==> None in answers))
      && (r.Success? ==>
            var found := Keep(ReadEngine.KeyIs(pk, k.rowId), ReadEngine.Answered(answers));
            r.value.rows == if found == [] then [] else [found[0]])
    ensures Anywhere(roster, samples, k, pk, r)
  {
    var answers := AnswersAt(roster, samples, k);
    FirstHitFound(roster, samples, k, pk);
    forall i | 0 <= i < |roster| ensures answers[i] in answers && (answers[i] == None <==> !samples[i].answered) {
    }
  }

  class Mesh {
    var st: State
    ghost var states: seq<State>
    ghost var labels: seq<Label>

    /** How many calls to the central store failed; being dropped during one counts as well. */
    ghost var faults: nat

    /** How many calls of this task to a provider failed or came too late. */
    ghost var misses: nat

    ghost predicate Valid()
      reads this
    {
      Execution(states, labels) && st == states[|labels|]
    }

    /** The run so far is a prefix of the run now. */
    twostate predicate Continues()
      reads this
    {
      old(states) <= states && old(labels) <= labels
    }

    constructor ()
      ensures Valid() && st == START && labels == []
    {
      st, states, labels := START, [START], [];
    }

    /** One atomic step. */
    method Do(l: Label)
      requires Valid() && Enabled(st, l)
      modifies `st, `states, `labels
      ensures Valid() && Continues() && st == Step(old(st), l)
      ensures labels == old(labels) + [l] && states == old(states) + [st]
    {
      ghost var before := st;
      st := Step(st, l);
      states, labels := states + [st], labels + [l];
      forall i | 0 <= i < |labels| ensures Follows(states[i], labels[i], states[i + 1]) {
        if i < |labels| - 1 {
          assert Follows(old(states)[i], old(labels)[i], old(states)[i + 1]);
        } else {
          assert states[i] == before;
        }
      }
    }

    /** Any number of steps of tasks other than `self`. */
    method Others(ghost self: Task)
      requires Valid()
      modifies `st, `states, `labels
      ensures Valid() && Continues()
      ensures forall i | |old(labels)| <= i < |labels| :: !By(self, labels[i])
    {
    }

    /** A call to the central store, as far as its outcome goes. */
    method StoreCall() returns (ok: bool)
      modifies `faults
      ensures faults == old(faults) + if ok then 0 else 1
    {
      ok := *;
      if !ok {
        faults := faults + 1;
      }
    }

    /** A call to a provider, as far as its outcome goes. */
    method ProviderCall() returns (ok: bool)
      modifies `misses
      ensures misses == old(misses) + if ok then 0 else 1
    {
      ok := *;
      if !ok {
        misses := misses + 1;
      }
    }

    method OthersThanDispatcher()
      requires Valid()
      modifies `st, `states, `labels
      ensures Valid() && Continues() && st.dispatcher == old(st.dispatcher)
      ensures old(st.buffer) <= st.buffer && old(st.sent) <= st.sent
    {
      Others(TheDispatcher);
      QuietDispatcher(states, labels, |old(labels)|, |labels|);
    }

    method OthersThanWriter()
      requires Valid()
      modifies `st, `states, `labels
      ensures Valid() && Continues() && st.writer == old(st.writer) && st.log == old(st.log)
      ensures forall t | t in old(st.tables) :: t in st.tables && st.tables[t] == old(st.tables)[t]
    {
      Others(TheWriter);
      QuietWriter(states, labels, |old(labels)|, |labels|);
      LogGrows(states, labels, |old(labels)|, |labels|);
    }

    /**
     * One dispatcher tick. Whatever fails, nothing enqueued is lost. It idles only when the roster was
     * empty, and stops only when the central store failed. A tick that runs to its end has issued an
     * apply for every op of its batch, the batch holds the oldest ops, and unless a provider failed
     * all of them have left the buffer.
     */
    method Tick(limit: nat) returns (r: TickOutcome)
      requires Valid() && st.dispatcher.DIdle?
      modifies this
      ensures Valid() && Continues() && st.dispatcher.DIdle?
      ensures NoLostWrites.NothingLost(st) && DDrop !in labels
      ensures r.Idle? ==> exists i | |old(labels)| <= i < |states| :: states[i].roster == []
      ensures r.Stopped? <==> faults > old(faults)
      ensures r.Drained? ==> AllSent(st, r.batch)
      ensures r.Drained? ==> |r.batch| <= limit && forall i | 0 <= i < |old(st.buffer)| && i < limit ::
                                                      i < |r.batch| && r.batch[i] == old(st.buffer)[i]
      ensures r.Drained? && misses == old(misses) ==> AllGone(st, r.batch)
    {
      r := RunTick(limit);
      NoLostWrites.NoAcceptedWriteIsLost(states, labels);
      NoLostWrites.DropBranchUnreachable(states, labels);
    }

    method RunTick(limit: nat) returns (r: TickOutcome)
      requires Valid() && st.dispatcher.DIdle?
      modifies this
      ensures Valid() && Continues() && st.dispatcher.DIdle?
      ensures r.Idle? ==> exists i | |old(labels)| <= i < |states| :: states[i].roster == []
      ensures r.Stopped? <==> faults > old(faults)
      ensures r.Drained? ==> AllSent(st, r.batch)
      ensures r.Drained? ==> |r.batch| <= limit && forall i | 0 <= i < |old(st.buffer)| && i < limit ::
                                                      i < |r.batch| && r.batch[i] == old(st.buffer)[i]
      ensures r.Drained? && misses == old(misses) ==> AllGone(st, r.batch)
    {
      OthersThanDispatcher();
      if st.roster == [] {
        assert states[|labels|].roster == [];
        return Idle;
      }
      Do(DSnapshot);
      OthersThanDispatcher();
      var ok := StoreCall();
      if !ok {
        Do(DAbort);
        return Stopped;
      }
      Do(DTake(limit));
      var batch := st.dispatcher.queue;
      r := Drain(batch);
    }

    /** Works through the batch. */
    method Drain(batch: seq<WriteOp>) returns (r: TickOutcome)
      requires Valid() && st.dispatcher.DDraining? && st.dispatcher.phase.Next? && st.dispatcher.snapshot != []
      requires st.dispatcher.queue == batch
      modifies this
      ensures Valid() && Continues() && st.dispatcher.DIdle?
      ensures r == (if faults > old(faults) then Stopped else Drained(batch)) && faults >= old(faults)
      ensures r.Drained? ==> AllSent(st, batch)
      ensures r.Drained? && misses == old(misses) ==> AllGone(st, batch)
    {
      var done := 0;
      while st.dispatcher.queue != []
        invariant Valid() && Continues()
        invariant st.dispatcher.DDraining? && st.dispatcher.phase.Next? && st.dispatcher.snapshot != []
        invariant 0 <= done <= |batch| && st.dispatcher.queue == batch[done..]
        invariant faults == old(faults) && misses >= old(misses)
        invariant AllSent(st, batch[..done])
        invariant misses == old(misses) ==> AllGone(st, batch[..done])
        decreases |st.dispatcher.queue|
      {
        ghost var earlier, a := st, |labels|;
        assert st.dispatcher.queue[0] == batch[done];
        var finished := HandleHead();
        if !finished {
          return Stopped;
        }
        assert states[a] == earlier;
        OneMoreSent(earlier, st, batch, done);
        if misses == old(misses) {
          OneMoreGone(states, labels, batch, done, a, |labels|);
        }
        done := done + 1;
      }
      assert batch[..done] == batch;
      ghost var drained := st;
      Do(DAbort);
      r := Drained(batch);
      SentStays(drained, st, batch);
    }

    /** One op of the batch: choose its owner, apply it there, record the owner, delete the op.
        A failed apply leaves it for a later tick; a central-store error ends the tick. */
    method HandleHead() returns (finished: bool)
      requires Valid() && AtHead(st) && st.dispatcher.phase.Next? && st.dispatcher.snapshot != []
      modifies this
      ensures Valid() && Continues()
      ensures finished <==> faults == old(faults)
      ensures faults >= old(faults) && misses >= old(misses)
      ensures !finished ==> st.dispatcher.DIdle?
      ensures finished ==> st.dispatcher == Advance(old(st.dispatcher))
      ensures finished ==> WasSent(st, old(st.dispatcher.queue[0]))
      ensures finished && misses == old(misses) ==> AllGone(st, [old(st.dispatcher.queue[0])])
      ensures old(st.sent) <= st.sent
    {
      OthersThanDispatcher();
      var ok := StoreCall();
      if !ok {
        Do(DAbort);
        return false;
      }
      var acked := ApplyHead();
      if !acked {
        return true;
      }
      finished := SettleHead();
    }

    /** Record the owner of an acknowledged op, then delete the op. */
    method SettleHead() returns (finished: bool)
      requires Valid() && AtHead(st) && st.dispatcher.phase.Acked?
      modifies `st, `states, `labels, `faults
      ensures Valid() && Continues() && old(st.sent) <= st.sent
      ensures finished <==> faults == old(faults)
      ensures faults >= old(faults)
      ensures st.dispatcher == if finished then Advance(old(st.dispatcher)) else DIdle
      ensures finished ==> AllGone(st, [old(st.dispatcher.queue[0])])
    {
      OthersThanDispatcher();
      var ok := StoreCall();
      if !ok {
        Do(DAbort);
        return false;
      }
      Do(DPlace);
      finished := DeleteHead();
    }

    method DeleteHead() returns (finished: bool)
      requires Valid() && AtHead(st) && st.dispatcher.phase.Placed?
      modifies `st, `states, `labels, `faults
      ensures Valid() && Continues() && old(st.sent) <= st.sent
      ensures faults == old(faults) + if finished then 0 else 1
      ensures st.dispatcher == if finished then Advance(old(st.dispatcher)) else DIdle
      ensures finished ==> AllGone(st, [old(st.dispatcher.queue[0])])
    {
      OthersThanDispatcher();
      finished := StoreCall();
      if finished {
        HeadIsLogged(states, labels);
        WithoutContents(st.buffer, st.dispatcher.queue[0].id);
        Do(DDelete);
      } else {
        Do(DAbort);
      }
    }

    /** Choose the owner of the head op and send it there. */
    method ApplyHead() returns (acked: bool)
      requires Valid() && AtHead(st) && st.dispatcher.phase.Next? && st.dispatcher.snapshot != []
      modifies `st, `states, `labels, `misses
      ensures Valid() && Continues() && old(st.sent) <= st.sent
      ensures misses == old(misses) + if acked then 0 else 1
      ensures WasSent(st, old(st.dispatcher.queue[0]))
      ensures acked ==> st.dispatcher.DDraining? && st.dispatcher.phase.Acked? &&
                        st.dispatcher == old(st.dispatcher).(phase := st.dispatcher.phase)
      ensures !acked ==> st.dispatcher == Advance(old(st.dispatcher))
    {
      NoLostWrites.DropBranchUnreachable(states, labels);
      assert st in states;
      Do(DChoose);
      OthersThanDispatcher();
      acked := ProviderCall();
      var effect: bool, updated: Row := *, *;
      ghost var sent := (st.dispatcher.queue[0], st.dispatcher.phase.target);
      Do(DApply(acked, acked || effect, updated));
      assert sent in st.sent;
    }

    /**
     * The write branch under the write lock. An accepted op is in the log and its placement names the
     * provider chosen at some moment of the call. A write is refused only for a moment at which the
     * gateway refuses it, and interrupted only when the central store failed; it may then have been
     * enqueued or not.
     */
    method Write(op: WriteOp) returns (r: WriteOutcome)
      requires Valid() && st.writer.WIdle?
      requires forall o | o in st.log :: o.id != op.id
      requires op.key.table in st.tables ==> WellKeyed(st, op)
      modifies `st, `states, `labels, `faults
      ensures Valid() && Continues() && st.writer.WIdle?
      ensures r.Accepted? ==> st.log == old(st.log) + [op]
      ensures r.Accepted? ==> exists i | |old(labels)| <= i < |states| :: PlacedByChoice(states[i], op, st)
      ensures r.Refused? ==> st.log == old(st.log)
      ensures r.Refused? ==> exists i | |old(labels)| <= i < |states| :: Refuses(states[i], op)
      ensures r.Interrupted? <==> faults > old(faults)
      ensures r.Interrupted? ==> st.log == old(st.log) || st.log == old(st.log) + [op]
    {
      OthersThanWriter();
      if op.key.table !in st.tables || st.roster == [] || !WellKeyed(st, op) {
        assert Refuses(states[|labels|], op);
        return Refused;
      }
      assert CanChoose(st, op);
      ghost var i, chosen := |labels|, st;
      Do(WChoose(op));
      r := FinishWrite(op);
      assert states[i] == chosen;
    }

    /** Enqueue the op, then record the chosen owner. */
    method FinishWrite(op: WriteOp) returns (r: WriteOutcome)
      requires Valid() && st.writer.WChosen? && st.writer.op == op
      modifies `st, `states, `labels, `faults
      ensures Valid() && Continues() && st.writer.WIdle? && r != Refused
      ensures r.Interrupted? <==> faults > old(faults)
      ensures r.Accepted? ==> st.log == old(st.log) + [op]
      ensures r.Accepted? ==> op.key in st.placement && st.placement[op.key] == [old(st.writer.owner)]
      ensures r.Interrupted? ==> st.log == old(st.log) || st.log == old(st.log) + [op]
    {
      OthersThanWriter();
      var ok := StoreCall();
      if !ok {
        Do(WAbort);
        return Interrupted;
      }
      Do(WEnqueue);
      OthersThanWriter();
      ok := StoreCall();
      if !ok {
        Do(WAbort);
        return Interrupted;
      }
      Do(WPlace);
      return Accepted;
    }

    /**
     * A point read, with any other task running between its steps. The buffer is read at `first` and
     * the placement at `second`. It falls back to a fan-out exactly when there is neither a buffered
     * row nor a placement then; rows are the buffered one, or what a placed replica answered later; and
     * it fails only when every placed replica failed or was off the roster.
     */
    method Read(k: Key, pk: string) returns (r: ReadOutcome, ghost first: nat, ghost second: nat)
      requires Valid() && k.table in st.tables && st.tables[k.table] == pk
      modifies `st, `states, `labels, `misses
      ensures Valid() && Continues() && |old(labels)| <= first <= second < |states|
      ensures r.FanOut? <==> !HasPending(states[first].buffer, k) && k !in states[second].placement
      ensures HasPending(states[first].buffer, k) ==>
                r.Rows? && |r.rows| == 1 && IsPending(states[first].buffer, k, r.rows[0])
      ensures r.Rows? && !HasPending(states[first].buffer, k) ==>
                k in states[second].placement &&
                RepliedBy(states[second..], states[second].placement[k], k, pk, r.rows)
      ensures r.NoProviders? && misses == old(misses) ==>
                k in states[second].placement && AwayAtTimes(states[second..], states[second].placement[k])
      ensures forall op | op in old(st.log) && op.kind == Insert && op.key == k && !HasByteMarker(k.rowId) &&
                          Sole(st, op) && AlwaysSafely(states, labels, op) ::
                r == NoProviders || (r.Rows? && |r.rows| == 1 && r.rows[0] - RESERVED == Image(op))
    {
      first := |labels|;
      var pending := PendingRows(st.buffer, k.table);
      second := |labels|;
      ghost var attempts: seq<Attempt> := [];
      if k.rowId in pending {
        r := Rows([pending[k.rowId]]);
        ghost var n := if k in st.placement then |st.placement[k]| else 0;
        ghost var unused := Attempt(st, false);
        attempts := seq(n, _ => unused);
        assert states[second] == unused.at;
      } else {
        Others(TheReader);
        second := |labels|;
        if k !in st.placement {
          r := FanOut;
        } else {
          r, attempts := Replicas(st.placement[k], k, pk);
        }
      }
      assert SampledAfter(states, second, attempts);
      assert r == PointRead(states[first], states[second], attempts, k, pk);
      OutcomeExactly(states[first], states[second], attempts, k, pk);
      if !HasPending(states[first].buffer, k) && k in states[second].placement {
        RepliesMean(states, second, states[second].placement[k], attempts, k, pk);
      }
      SoleInsertsAreRead(states, labels, k, pk, first, second, attempts);
    }

    /** Asks one replica: a row or none, or no answer when it is off the roster, fails or is late. */
    method AskReplica(replica: string, k: Key, pk: string) returns (rows: Option<seq<Row>>, ghost attempt: Attempt)
      requires Valid()
      modifies `st, `states, `labels, `misses
      ensures Valid() && Continues() && attempt.at == st && misses >= old(misses)
      ensures rows == if Silent(replica, attempt) then None else Some(QueryRow(st, replica, k, pk))
      ensures rows.None? && misses == old(misses) ==> replica !in st.roster
    {
      Others(TheReader);
      attempt, rows := Attempt(st, false), None;
      if replica in st.roster {
        var answered := ProviderCall();
        attempt := Attempt(st, answered);
        if answered {
          rows := Some(QueryRow(st, replica, k, pk));
        }
      }
    }

    /** The replica loop of a point read. */
    method Replicas(replicas: seq<string>, k: Key, pk: string) returns (r: ReadOutcome, ghost attempts: seq<Attempt>)
      requires Valid()
      modifies `st, `states, `labels, `misses
      ensures Valid() && Continues() && misses >= old(misses)
      ensures |attempts| == |replicas| && SampledAfter(states, |old(labels)|, attempts)
      ensures r == TryReplicas(replicas, attempts, k, pk)
      ensures r.NoProviders? && misses == old(misses) ==> AllAway(replicas, attempts)
    {
      attempts := [];
      for n := 0 to |replicas|
        invariant Valid() && Continues() && misses >= old(misses)
        invariant |attempts| == n && SampledAfter(states, |old(labels)|, attempts)
        invariant Skipped(replicas, attempts)
        invariant misses == old(misses) ==> AllAway(replicas[..n], attempts)
      {
        ghost var before := states;
        var rows;
        ghost var attempt;
        rows, attempt := AskReplica(replicas[n], k, pk);
        SampledMore(before, states, |old(labels)|, attempts, attempt);
        attempts := attempts + [attempt];
        if rows.Some? {
          r := Rows(rows.value);
          SampledFill(states, |old(labels)|, attempts, |replicas|);
          attempts := Filled(attempts, |replicas|);
          SkipTo(replicas, attempts, n, k, pk);
          return;
        }
      }
      assert replicas[..|replicas|] == replicas;
      SkipTo(replicas, attempts, |replicas|, k, pk);
      r := NoProviders;
    }

    /** Asks every provider, each at its own moment. */
    method AskAll(providers: seq<string>, k: Key) returns (answers: seq<ReadEngine.Answer>, ghost samples: seq<Attempt>)
      requires Valid()
      modifies `st, `states, `labels, `misses
      ensures Valid() && Continues()
      ensures |samples| == |providers| && SampledAfter(states, |old(labels)|, samples)
      ensures answers == AnswersAt(providers, samples, k)
    {
      samples, answers := [], [];
      for n := 0 to |providers|
        invariant Valid() && Continues()
        invariant |samples| == n && SampledAfter(states, |old(labels)|, samples)
        invariant answers == AnswersAt(providers[..n], samples, k)
      {
        ghost var before := states;
        Others(TheReader);
        var answered := ProviderCall();
        SampledMore(before, states, |old(labels)|, samples, Attempt(st, answered));
        samples := samples + [Attempt(st, answered)];
        answers := answers + [if answered then Some(StoredRow(st, providers[n], k)) else None];
        assert answers == AnswersAt(providers[..n + 1], samples, k);
      }
      assert providers[..|providers|] == providers;
    }

    /**
     * The fallback for a row without a placement: every provider on the roster is asked, each at its own
     * moment, and the answer is the first row of that key that any of them gave, in roster order.
     */
    method ReadAnywhere(k: Key, pk: string)
      returns (r: Result<ReadEngine.ReadResult, ReadEngine.ReadError>,
               ghost roster: seq<string>, ghost samples: seq<Attempt>)
      requires Valid()
      modifies `st, `states, `labels, `misses
      ensures Valid() && Continues()
      ensures |samples| == |roster| && SampledAfter(states, |old(labels)|, samples)
      ensures exists i | |old(labels)| <= i < |states| :: states[i].roster == roster
      ensures Anywhere(roster, samples, k, pk, r)
    {
      Others(TheReader);
      ghost var moment := |labels|;
      assert states[moment].roster == st.roster;
      roster := st.roster;
      var answers;
      answers, samples := AskAll(st.roster, k);
      r := ReadEngine.FanoutPoint(answers, pk, k.rowId);
      AnywhereIs(roster, samples, k, pk, r);
    }
  }
}
