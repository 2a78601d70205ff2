/** Point reads (pg-gateway/src/readengine.rs): the buffer, then the placed replicas, else a fan-out. */
module PointReads {
  import opened Wrappers
  import opened Basics
  import opened Json
  import opened MeshProtocol
  import ReadEngine

  /** `pending_rows`: per row of a table the payload of its latest buffered op, unless that is a DELETE. */
  function PendingRows(buffer: seq<WriteOp>, table: string): map<string, Row> {
    if buffer == [] then map[]
    else
      var earlier := PendingRows(buffer[..|buffer| - 1], table);
      var op := buffer[|buffer| - 1];
      if op.key.table != table then earlier
      else if op.kind == Delete then earlier - {op.key.rowId}
      else earlier[op.key.rowId := op.payload]
  }

  /** The latest buffered op of a row. */
  predicate IsLatest(buffer: seq<WriteOp>, k: Key, i: nat) {
    i < |buffer| && buffer[i].key == k && forall j | i < j < |buffer| :: buffer[j].key != k
  }

  /** The latest buffered op of a row is not a DELETE, and this is its payload. */
  predicate IsPending(buffer: seq<WriteOp>, k: Key, row: Row) {
    exists i | 0 <= i < |buffer| :: IsLatest(buffer, k, i) && buffer[i].kind != Delete && buffer[i].payload == row
  }

  predicate HasPending(buffer: seq<WriteOp>, k: Key) {
    exists i | 0 <= i < |buffer| :: IsLatest(buffer, k, i) && buffer[i].kind != Delete
  }

  lemma LatestSnoc(buffer: seq<WriteOp>, k: Key, i: nat)
    requires buffer != []
    ensures var n := |buffer| - 1;
      IsLatest(buffer, k, i) <==> if buffer[n].key == k then i == n else IsLatest(buffer[..n], k, i)
  {
    var n := |buffer| - 1;
    assert forall j | 0 <= j < n :: buffer[..n][j] == buffer[j];
  }

  lemma {:induction false} PendingExactly(buffer: seq<WriteOp>, k: Key)
    ensures k.rowId in PendingRows(buffer, k.table) <==> HasPending(buffer, k)
    ensures forall row :: IsPending(buffer, k, row) <==>
              k.rowId in PendingRows(buffer, k.table) && PendingRows(buffer, k.table)[k.rowId] == row
  {
    if buffer != [] {
      var n := |buffer| - 1;
      var init := buffer[..n];
      PendingExactly(init, k);
      forall i: nat ensures IsLatest(buffer, k, i) <==> if buffer[n].key == k then i == n else IsLatest(init, k, i) {
        LatestSnoc(buffer, k, i);
      }
      if buffer[n].key == k {
        assert IsLatest(buffer, k, n);
      } else {
        PendingOther(buffer, k);
      }
    }
  }

  lemma PendingOther(buffer: seq<WriteOp>, k: Key)
    requires buffer != [] && buffer[|buffer| - 1].key != k
    ensures var n := |buffer| - 1;
      && (HasPending(buffer, k) <==> HasPending(buffer[..n], k))
      && forall row :: IsPending(buffer, k, row) <==> IsPending(buffer[..n], k, row)
  {
    var n := |buffer| - 1;
    var init := buffer[..n];
    forall i: nat | i < n ensures IsLatest(buffer, k, i) <==> IsLatest(init, k, i) {
      LatestSnoc(buffer, k, i);
    }
    assert forall i | 0 <= i < n :: init[i] == buffer[i];
  }

  datatype ReadOutcome = Rows(rows: seq<Row>) | FanOut | NoProviders

  /** One query to a replica: the state of the mesh then, and whether an answer came in time. */
  datatype Attempt = Attempt(at: State, answered: bool)

  function KeepRow(row: Row, pk: string, rowId: string): seq<Row> {
    if RowKey(row, pk) == Some(rowId) then [row] else []
  }

  /** The rows a provider returns for `WHERE pk = rowId`. */
  function StoredRow(s: State, provider: string, k: Key): seq<Row> {
    if k in Db(s, provider).rows then [Db(s, provider).rows[k]] else []
  }

  /** The rows a provider returns for `WHERE pk = rowId`, after the gateway's own key filter. */
  function QueryRow(s: State, provider: string, k: Key, pk: string): seq<Row> {
    var rows := Db(s, provider).rows;
    if k in rows then KeepRow(rows[k], pk, k.rowId) else []
  }

  /** The replica loop: unresolved, failed and late replicas are skipped. */
  function TryReplicas(replicas: seq<string>, attempts: seq<Attempt>, k: Key, pk: string): ReadOutcome
    requires |attempts| == |replicas|
  {
    if replicas == [] then NoProviders
    else if replicas[0] in attempts[0].at.roster && attempts[0].answered then
      Rows(QueryRow(attempts[0].at, replicas[0], k, pk))
    else TryReplicas(replicas[1..], attempts[1..], k, pk)
  }

  /** `point_read`: the buffer as it is in `first`, then the placement as it is in `second`, then the
      replicas one by one. Without a placement the read becomes a fan-out. */
  function PointRead(first: State, second: State, attempts: seq<Attempt>, k: Key, pk: string): ReadOutcome
    requires k in second.placement ==> |attempts| == |second.placement[k]|
  {
    var pending := PendingRows(first.buffer, k.table);
    if k.rowId in pending then Rows([pending[k.rowId]])
    else if k !in second.placement then FanOut
    else TryReplicas(second.placement[k], attempts, k, pk)
  }

  // ----- What an outcome means -----

  /** This replica was asked at that moment and answered with these rows. */
  predicate AnswersWith(s: State, p: string, k: Key, pk: string, rows: seq<Row>) {
    && p in s.roster
    && rows == if Holds(s, p, k) && RowKey(Db(s, p).rows[k], pk) == Some(k.rowId) then [Db(s, p).rows[k]] else []
  }

  /** The replica loop returns what the first replica answered that is on the roster and answers at all. */
  lemma {:induction false} RepliesExactly(replicas: seq<string>, attempts: seq<Attempt>, k: Key, pk: string)
    requires |attempts| == |replicas|
    ensures var r := TryReplicas(replicas, attempts, k, pk);
      && !r.FanOut?
      && (r.NoProviders? <==> forall i | 0 <= i < |replicas| :: Silent(replicas[i], attempts[i]))
      && (r.Rows? ==> exists i | 0 <= i < |replicas| ::
            FirstReply(replicas, attempts, i) && AnswersWith(attempts[i].at, replicas[i], k, pk, r.rows))
  {
    if replicas != [] && Silent(replicas[0], attempts[0]) {
      RepliesExactly(replicas[1..], attempts[1..], k, pk);
      var r := TryReplicas(replicas, attempts, k, pk);
      assert forall i | 0 <= i < |replicas| - 1 :: replicas[1..][i] == replicas[i + 1];
      assert forall i | 0 <= i < |replicas| - 1 :: attempts[1..][i] == attempts[i + 1];
      if r.Rows? {
        var i :| 0 <= i < |replicas| - 1 && FirstReply(replicas[1..], attempts[1..], i) &&
                 AnswersWith(attempts[1..][i].at, replicas[1..][i], k, pk, r.rows);
        ReplyShifts(replicas, attempts, i);
      }
    } else if replicas != [] {
      assert FirstReply(replicas, attempts, 0);
    }
  }

  predicate Silent(replica: string, attempt: Attempt) {
    replica !in attempt.at.roster || !attempt.answered
  }

  predicate FirstReply(replicas: seq<string>, attempts: seq<Attempt>, i: nat)
    requires |attempts| == |replicas|
  {
    && i < |replicas| && !Silent(replicas[i], attempts[i])
    && forall j | 0 <= j < i :: Silent(replicas[j], attempts[j])
  }

  lemma ReplyShifts(replicas: seq<string>, attempts: seq<Attempt>, i: nat)
    requires |attempts| == |replicas| && replicas != [] && Silent(replicas[0], attempts[0])
    requires FirstReply(replicas[1..], attempts[1..], i)
    ensures FirstReply(replicas, attempts, i + 1)
  {
    forall j | 0 <= j < i + 1 ensures Silent(replicas[j], attempts[j]) {
      assert j > 0 ==> Silent(replicas[1..][j - 1], attempts[1..][j - 1]);
    }
  }

  /** What a point read returns: the buffered row, the fall-back to a fan-out, or a replica's answer. */
  lemma OutcomeExactly(first: State, second: State, attempts: seq<Attempt>, k: Key, pk: string)
    requires k in second.placement ==> |attempts| == |second.placement[k]|
    ensures var r := PointRead(first, second, attempts, k, pk);
      && (r.FanOut? <==> !HasPending(first.buffer, k) && k !in second.placement)
      && (HasPending(first.buffer, k) ==> r.Rows? && |r.rows| == 1 && IsPending(first.buffer, k, r.rows[0]))
      && (!HasPending(first.buffer, k) && k in second.placement ==>
            r == TryReplicas(second.placement[k], attempts, k, pk))
  {
    PendingExactly(first.buffer, k);
    if k in second.placement {
      RepliesExactly(second.placement[k], attempts, k, pk);
    }
  }

  // ----- The fallback -----

  /** The i-th provider is the first that answered with a row of that key. */
  predicate FirstHit(roster: seq<string>, samples: seq<Attempt>, k: Key, pk: string, i: nat)
    requires |samples| == |roster|
  {
    && i < |roster| && samples[i].answered && QueryRow(samples[i].at, roster[i], k, pk) != []
    && forall j | 0 <= j < i && samples[j].answered :: QueryRow(samples[j].at, roster[j], k, pk) == []
  }

  /** What one provider answered. */
  function AnswerAt(provider: string, sample: Attempt, k: Key): ReadEngine.Answer {
    if sample.answered then Some(StoredRow(sample.at, provider, k)) else None
  }

  function AnswersAt(roster: seq<string>, samples: seq<Attempt>, k: Key): seq<ReadEngine.Answer>
    requires |samples| == |roster|
  {
    seq(|roster|, i requires 0 <= i < |roster| => AnswerAt(roster[i], samples[i], k))
  }

  /** The rows of the key among the answers, in roster order. */
  function Hits(roster: seq<string>, samples: seq<Attempt>, k: Key, pk: string): seq<Row>
    requires |samples| == |roster|
  {
    if roster == [] then []
    else
      var n := |roster| - 1;
      Hits(roster[..n], samples[..n], k, pk) +
      if samples[n].answered then QueryRow(samples[n].at, roster[n], k, pk) else []
  }

  lemma KeptRow(s: State, p: string, k: Key, pk: string)
    ensures Keep(ReadEngine.KeyIs(pk, k.rowId), StoredRow(s, p, k)) == QueryRow(s, p, k, pk)
  {
    if Holds(s, p, k) {
      var stored := StoredRow(s, p, k);
      assert stored[..0] == [];
    }
  }

  lemma {:induction false} HitsAreKept(roster: seq<string>, samples: seq<Attempt>, k: Key, pk: string)
    requires |samples| == |roster|
    ensures Keep(ReadEngine.KeyIs(pk, k.rowId), ReadEngine.Answered(AnswersAt(roster, samples, k))) ==
            Hits(roster, samples, k, pk)
  {
    if roster != [] {
      var n := |roster| - 1;
      var before, all := AnswersAt(roster[..n], samples[..n], k), AnswersAt(roster, samples, k);
      HitsAreKept(roster[..n], samples[..n], k, pk);
      assert all[..n] == before;
      KeptRow(samples[n].at, roster[n], k, pk);
      KeepConcat(ReadEngine.KeyIs(pk, k.rowId), ReadEngine.Answered(before), all[n].GetOr([]));
    }
  }

  lemma {:induction false} HitsExactly(roster: seq<string>, samples: seq<Attempt>, k: Key, pk: string, i: nat)
    requires |samples| == |roster|
    ensures Hits(roster, samples, k, pk) == [] <==>
            forall j | 0 <= j < |roster| && samples[j].answered :: QueryRow(samples[j].at, roster[j], k, pk) == []
    ensures FirstHit(roster, samples, k, pk, i) ==>
              Hits(roster, samples, k, pk) != [] &&
              [Hits(roster, samples, k, pk)[0]] == QueryRow(samples[i].at, roster[i], k, pk)
  {
    if roster != [] {
      var n := |roster| - 1;
      var init, before := roster[..n], samples[..n];
      HitsExactly(init, before, k, pk, i);
      assert forall j | 0 <= j < n :: init[j] == roster[j] && before[j] == samples[j];
      if FirstHit(roster, samples, k, pk, i) && i < n {
        assert FirstHit(init, before, k, pk, i);
      }
    }
  }

  /** The rows that the fallback keeps of all answers: the first hit's, or none when there is no hit. */
  lemma FirstHitFound(roster: seq<string>, samples: seq<Attempt>, k: Key, pk: string)
    requires |samples| == |roster|
    ensures var found := Keep(ReadEngine.KeyIs(pk, k.rowId), ReadEngine.Answered(AnswersAt(roster, samples, k)));
      && (found == [] <==> forall j | 0 <= j < |roster| && samples[j].answered ::
                             QueryRow(samples[j].at, roster[j], k, pk) == [])
      && forall i | 0 <= i < |roster| && FirstHit(roster, samples, k, pk, i) ::
           found != [] && [found[0]] == QueryRow(samples[i].at, roster[i], k, pk)
  {
    HitsAreKept(roster, samples, k, pk);
    HitsExactly(roster, samples, k, pk, 0);
    forall i | 0 <= i < |roster| && FirstHit(roster, samples, k, pk, i)
      ensures Hits(roster, samples, k, pk) != [] &&
              [Hits(roster, samples, k, pk)[0]] == QueryRow(samples[i].at, roster[i], k, pk)
    {
      HitsExactly(roster, samples, k, pk, i);
    }
  }
}
