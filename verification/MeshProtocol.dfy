/** The write path as a transition system: the gateway's write branch, the background
    dispatcher, the roster poll and pg-agent's apply, one central-store or provider call a step.
    (pg-gateway/src/{pgwirehandler,dispatcher,central,registry}.rs, storage-client/pg-agent/src/apply.ts) */
module MeshProtocol {
  import opened Json
  import opened Registry

  datatype Key = Key(table: string, rowId: string)

  datatype OpKind = Insert | Update | Delete

  /** A buffered write. An INSERT carries the captured row image plus the reserved conflict keys. */
  datatype WriteOp = WriteOp(id: string, key: Key, kind: OpKind, payload: Row)

  const RESERVED: set<string> := {"_conflictColumns", "_conflictPredicate"}

  /** What a provider stores: the image without the reserved keys. */
  function Image(op: WriteOp): Row {
    op.payload - RESERVED
  }

  /** A provider's mesh database: the ids in its idempotency table and its rows. */
  datatype ProviderDb = ProviderDb(applied: set<string>, rows: map<Key, Row>)

  /** pg-agent's apply of one op. `updated` is the row an UPDATE's SQL leaves behind. */
  function ApplyOp(db: ProviderDb, op: WriteOp, updated: Row): ProviderDb {
    if op.id in db.applied then db
    else
      var rows := match op.kind
        case Insert => db.rows[op.key := Image(op)]
        case Update => if op.key in db.rows then db.rows[op.key := updated] else db.rows
        case Delete => db.rows - {op.key};
      ProviderDb(db.applied + {op.id}, rows)
  }

  /** The write branch; `write_lock` admits one at a time. */
  datatype Writer =
    | WIdle
    | WChosen(op: WriteOp, owner: string)
    | WEnqueued(key: Key, owner: string)

  /** Progress on the op at the head of the dispatcher's batch. */
  datatype Phase = Next | Chosen(target: string) | Acked(target: string) | Placed(target: string)

  datatype Dispatcher =
    | DIdle
    | DReady(snapshot: seq<string>)
    | DDraining(snapshot: seq<string>, queue: seq<WriteOp>, phase: Phase)

  /** `tables` maps a registered table to its primary-key column. `log`, `sent` and `acks` are
      history: every op ever enqueued, every apply ever issued, every apply ever acknowledged. */
  datatype State = State(
    tables: map<string, string>,
    roster: seq<string>,
    buffer: seq<WriteOp>,
    placement: map<Key, seq<string>>,
    providers: map<string, ProviderDb>,
    writer: Writer,
    dispatcher: Dispatcher,
    log: seq<WriteOp>,
    sent: set<(WriteOp, string)>,
    acks: set<(string, string)>)

  function Db(s: State, p: string): ProviderDb {
    if p in s.providers then s.providers[p] else ProviderDb({}, map[])
  }

  function Existing(s: State, k: Key): seq<string> {
    if k in s.placement then s.placement[k] else []
  }

  function Without(ops: seq<WriteOp>, id: string): seq<WriteOp> {
    if ops == [] then []
    else if ops[0].id == id then Without(ops[1..], id)
    else [ops[0]] + Without(ops[1..], id)
  }

  /** The captured row's key column is the op's row id. */
  predicate WellKeyed(s: State, op: WriteOp) {
    op.key.table in s.tables &&
    (op.kind == Insert ==>
       var pk := s.tables[op.key.table];
       pk in op.payload && pk !in RESERVED && op.payload[pk] == Text(op.key.rowId))
  }

  datatype Label =
    | RegisterTable(table: string, pk: string)
    | Refresh(roster: seq<string>)
    | WChoose(op: WriteOp)
    | WEnqueue
    | WPlace
    | WAbort
    | WWrite(op: WriteOp)
    | DSnapshot
    | DTake(limit: nat)
    | DDrop
    | DChoose
    | DApply(ok: bool, effect: bool, updated: Row)
    | DPlace
    | DDelete
    | DAbort

  predicate AtHead(s: State) {
    s.dispatcher.DDraining? && s.dispatcher.queue != []
  }

  predicate Enabled(s: State, l: Label) {
    match l
    case RegisterTable(t, _) => t !in s.tables
    case Refresh(_) => true
    case WChoose(op) => CanChoose(s, op)
    case WEnqueue => s.writer.WChosen?
    case WPlace => s.writer.WEnqueued?
    case WAbort => true
    case WWrite(op) => CanChoose(s, op)
    case DSnapshot => s.dispatcher.DIdle? && s.roster != []
    case DTake(_) => s.dispatcher.DReady?
    case DDrop => AtHead(s) && s.dispatcher.phase.Next? && s.dispatcher.queue[0].key.table !in s.tables
    case DChoose =>
      AtHead(s) && s.dispatcher.phase.Next? && s.dispatcher.snapshot != [] &&
      s.dispatcher.queue[0].key.table in s.tables
    case DApply(ok, effect, _) => AtHead(s) && s.dispatcher.phase.Chosen? && (ok ==> effect)
    case DPlace => AtHead(s) && s.dispatcher.phase.Acked?
    case DDelete => AtHead(s) && s.dispatcher.phase.Placed?
    case DAbort => true
  }

  /** A write proceeds for a registered table, with a fresh ULID and a non-empty roster. */
  predicate CanChoose(s: State, op: WriteOp) {
    s.writer.WIdle? && WellKeyed(s, op) && s.roster != [] && forall o | o in s.log :: o.id != op.id
  }

  function ChooseStep(s: State, op: WriteOp): State
    requires s.roster != []
  {
    s.(writer := WChosen(op, SelectOwner(op.key.rowId, s.roster, Existing(s, op.key)).value))
  }

  function EnqueueStep(s: State): State
    requires s.writer.WChosen?
  {
    s.(buffer := s.buffer + [s.writer.op], log := s.log + [s.writer.op],
       writer := WEnqueued(s.writer.op.key, s.writer.owner))
  }

  function PlaceStep(s: State): State
    requires s.writer.WEnqueued?
  {
    s.(placement := s.placement[s.writer.key := [s.writer.owner]], writer := WIdle)
  }

  function Advance(d: Dispatcher): Dispatcher
    requires d.DDraining? && d.queue != []
  {
    DDraining(d.snapshot, d.queue[1..], Next)
  }

  function ApplyStep(s: State, ok: bool, effect: bool, updated: Row): State
    requires AtHead(s) && s.dispatcher.phase.Chosen?
  {
    var op := s.dispatcher.queue[0];
    var target := s.dispatcher.phase.target;
    s.(providers := if effect then s.providers[target := ApplyOp(Db(s, target), op, updated)] else s.providers,
       sent := s.sent + {(op, target)},
       acks := if ok then s.acks + {(op.id, target)} else s.acks,
       dispatcher := if ok then s.dispatcher.(phase := Acked(target)) else Advance(s.dispatcher))
  }

  function Step(s: State, l: Label): State
    requires Enabled(s, l)
  {
    match l
    case RegisterTable(t, pk) => s.(tables := s.tables[t := pk])
    case Refresh(r) => s.(roster := r)
    case WChoose(op) => ChooseStep(s, op)
    case WEnqueue => EnqueueStep(s)
    case WPlace => PlaceStep(s)
    case WAbort => s.(writer := WIdle)
    case WWrite(op) => PlaceStep(EnqueueStep(ChooseStep(s, op)))
    case DSnapshot => s.(dispatcher := DReady(s.roster))
    case DTake(limit) =>
      var n := if limit < |s.buffer| then limit else |s.buffer|;
      s.(dispatcher := DDraining(s.dispatcher.snapshot, s.buffer[..n], Next))
    case DDrop =>
      s.(buffer := Without(s.buffer, s.dispatcher.queue[0].id), dispatcher := Advance(s.dispatcher))
    case DChoose =>
      var op := s.dispatcher.queue[0];
      s.(dispatcher := s.dispatcher.(phase :=
           Chosen(SelectOwner(op.key.rowId, s.dispatcher.snapshot, Existing(s, op.key)).value)))
    case DApply(ok, effect, updated) => ApplyStep(s, ok, effect, updated)
    case DPlace =>
      s.(placement := s.placement[s.dispatcher.queue[0].key := [s.dispatcher.phase.target]],
         dispatcher := s.dispatcher.(phase := Placed(s.dispatcher.phase.target)))
    case DDelete =>
      s.(buffer := Without(s.buffer, s.dispatcher.queue[0].id), dispatcher := Advance(s.dispatcher))
    case DAbort => s.(dispatcher := DIdle)
  }

  /** A gateway that has just started on an empty mesh. */
  const START: State := State(map[], [], [], map[], map[], WIdle, DIdle, [], {}, {})

  /** A run: `states[i + 1]` follows from `states[i]` by `labels[i]`. */
  ghost predicate Execution(states: seq<State>, labels: seq<Label>) {
    && |states| == |labels| + 1
    && states[0] == START
    && forall i | 0 <= i < |labels| :: Follows(states[i], labels[i], states[i + 1])
  }

  ghost predicate Follows(s: State, l: Label, s': State) {
    Enabled(s, l) && s' == Step(s, l)
  }

  predicate Holds(s: State, p: string, k: Key) {
    k in Db(s, p).rows
  }

  /** No two providers hold the same row. */
  ghost predicate Exclusive(s: State) {
    forall p, q, k | Holds(s, p, k) && Holds(s, q, k) :: p == q
  }

  lemma {:induction false} WithoutContents(ops: seq<WriteOp>, id: string)
    ensures forall o :: o in Without(ops, id) <==> o in ops && o.id != id
  {
    if ops != [] {
      WithoutContents(ops[1..], id);
      assert ops == [ops[0]] + ops[1..];
    }
  }
}
