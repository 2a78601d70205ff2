/** Schema migrations: versions, delivery to providers, and the recorded watermarks. */
module Migrations {
  import opened Wrappers
  import opened Basics

  // ----- The agent -----

  /** A provider's schema state: the migrations it has applied, and the version it reports. */
  datatype Agent = Agent(applied: set<nat>, version: nat)

  /** The most migrations an agent takes in one request. */
  const MAX_MIGRATIONS: nat := 200

  function Elements(list: seq<nat>): set<nat> {
    set v | v in list
  }

  /** The version after running `list`: the highest of the old one and the newly applied ones. */
  function Raised(agent: Agent, list: seq<nat>): nat {
    if list == [] then agent.version
    else
      var before, v := Raised(agent, list[..|list| - 1]), list[|list| - 1];
      if v in agent.applied then before else Max(before, v)
  }

  class PgAgent {
    var applied: set<nat>
    var version: nat

    function State(): Agent
      reads this
    {
      Agent(applied, version)
    }

    /**
     * Applies the migrations in order, skipping those it knows. When one fails the earlier ones stay
     * applied, but the version is only written after all of them.
     */
    method Schema(list: seq<nat>, failing: set<nat>) returns (answer: Option<nat>)
      requires forall i, j | 0 <= i < j < |list| :: list[i] < list[j]
      modifies this
      ensures |list| > MAX_MIGRATIONS ==> State() == old(State())
      ensures var outcome := if answer.Some? then Replied else Failed(applied);
        Possible(old(State()), list, outcome) && State() == Delivered(old(State()), list, outcome)
      ensures answer.Some? ==> answer.value == version
      ensures answer.None? <==> |list| > MAX_MIGRATIONS || exists v :: v in list && v !in old(applied) && v in failing
    {
      if |list| > MAX_MIGRATIONS {
        return None;
      }
      var raised := version;
      for i := 0 to |list|
        invariant version == old(version) && raised == Raised(old(State()), list[..i])
        invariant applied == old(applied) + Elements(list[..i])
        invariant forall v | v in list[..i] :: v in old(applied) || v !in failing
      {
        var v := list[i];
        assert list[..i + 1][..i] == list[..i];
        assert Elements(list[..i + 1]) == Elements(list[..i]) + {v};
        assert v in applied <==> v in old(applied);
        if v !in applied {
          if v in failing {
            return None;
          }
          applied := applied + {v};
          raised := Max(raised, v);
        }
      }
      assert list[..|list|] == list;
      version := raised;
      answer := Some(version);
    }
  }

  /** Every version up to the reported one has been applied. */
  ghost predicate Contiguous(agent: Agent) {
    forall v: nat | 1 <= v <= agent.version :: v in agent.applied
  }

  /** Below every new version of the list, nothing is missing: it is in the list or already applied. */
  ghost predicate Covers(list: seq<nat>, applied: set<nat>) {
    forall u, v: nat | u in list && u !in applied && 1 <= v <= u :: v in list || v in applied
  }

  lemma {:induction false} RaisedBounds(agent: Agent, list: seq<nat>)
    ensures Raised(agent, list) >= agent.version
    ensures forall v | v in list && v !in agent.applied :: v <= Raised(agent, list)
    ensures Raised(agent, list) == agent.version ||
            (Raised(agent, list) in list && Raised(agent, list) !in agent.applied)
  {
    if list != [] {
      RaisedBounds(agent, list[..|list| - 1]);
      assert list == list[..|list| - 1] + [list[|list| - 1]];
    }
  }

  /** A successful delivery leaves no gap below the reported version if and only if the list covers. */
  lemma DeliveryExactly(agent: Agent, list: seq<nat>)
    requires Contiguous(agent)
    ensures Contiguous(Agent(agent.applied + Elements(list), Raised(agent, list))) <==> Covers(list, agent.applied)
  {
    RaisedBounds(agent, list);
    var after := Agent(agent.applied + Elements(list), Raised(agent, list));
    if Contiguous(after) {
      forall u, v: nat | u in list && u !in agent.applied && 1 <= v <= u ensures v in list || v in agent.applied {
        assert v in after.applied;
      }
    }
    if Covers(list, agent.applied) {
      forall v: nat | 1 <= v <= after.version ensures v in after.applied {
        if v > agent.version {
          assert after.version in list && after.version !in agent.applied;
        }
      }
    }
  }

  lemma CoversGrows(list: seq<nat>, applied: set<nat>, more: set<nat>)
    requires Covers(list, applied) && applied <= more
    ensures Covers(list, more)
  {
  }

  // ----- The registry -----

  /** A row of `pg_migration`. */
  datatype Migration = Migration(version: nat, pending: bool)

  function MaxVersion(rows: seq<Migration>): nat {
    if rows == [] then 0 else Max(MaxVersion(rows[..|rows| - 1]), rows[|rows| - 1].version)
  }

  function PendingList(rows: seq<Migration>): seq<nat> {
    if rows == [] then []
    else
      var row := rows[|rows| - 1];
      PendingList(rows[..|rows| - 1]) + if row.pending then [row.version] else []
  }

  function SinceList(rows: seq<Migration>, version: nat): seq<nat> {
    if rows == [] then []
    else
      var row := rows[|rows| - 1];
      SinceList(rows[..|rows| - 1], version) + if row.version > version then [row.version] else []
  }

  function MarkApplied(rows: seq<Migration>, version: nat): seq<Migration> {
    seq(|rows|, i requires 0 <= i < |rows| =>
      if rows[i].version == version then rows[i].(pending := false) else rows[i])
  }

  /** A list of versions on its way to a provider, and an answer on its way back. */
  datatype CatchUp = CatchUp(npub: string, since: nat, list: seq<nat>)
  datatype Answer = Answer(npub: string, version: nat)

  /** Reads, requests and answers stay around, so that they may be acted on at any later time. */
  datatype State = State(
    rows: seq<Migration>,
    agents: map<string, Agent>,
    recorded: map<string, nat>,
    watermarkReads: set<Answer>,
    pendingLists: set<seq<nat>>,
    catchUps: set<CatchUp>,
    answers: set<Answer>)

  const START := State([], map[], map[], {}, {}, {}, {})

  function AgentOf(s: State, npub: string): Agent {
    if npub in s.agents then s.agents[npub] else Agent({}, 0)
  }

  /** `provider_schema_version`: the highest acknowledged version, 0 when never seen. */
  function Watermark(s: State, npub: string): nat {
    if npub in s.recorded then s.recorded[npub] else 0
  }

  /** What becomes of a request: answered, answered in vain, or failed after applying some of it. */
  datatype Outcome = Replied | ReplyLost | Failed(applied: set<nat>)

  datatype Label =
    | Append
    | SetApplied(version: nat)
    | ReadPending
    | ReadWatermark(npub: string)
    | ReadSince(npub: string, since: nat)
    | SendPending(npub: string, list: seq<nat>, outcome: Outcome)
    | SendCatchUp(npub: string, since: nat, list: seq<nat>, outcome: Outcome)
    | Record(npub: string, version: nat)

  predicate Enabled(s: State, l: Label) {
    match l
    case Append => true
    case SetApplied(_) => true
    case ReadPending => true
    case ReadWatermark(_) => true
    case ReadSince(p, c) => Answer(p, c) in s.watermarkReads
    case SendPending(p, list, o) => list in s.pendingLists && Possible(AgentOf(s, p), list, o)
    case SendCatchUp(p, c, list, o) => CatchUp(p, c, list) in s.catchUps && Possible(AgentOf(s, p), list, o)
    case Record(p, v) => Answer(p, v) in s.answers
  }

  /** A list that is too long is refused as a whole. */
  predicate Possible(agent: Agent, list: seq<nat>, outcome: Outcome) {
    if |list| > MAX_MIGRATIONS then outcome == Failed(agent.applied)
    else outcome.Failed? ==> agent.applied <= outcome.applied <= agent.applied + Elements(list)
  }

  function Delivered(agent: Agent, list: seq<nat>, outcome: Outcome): Agent {
    if outcome.Failed? then agent.(applied := outcome.applied)
    else Agent(agent.applied + Elements(list), Raised(agent, list))
  }

  function Send(s: State, npub: string, list: seq<nat>, outcome: Outcome): State {
    var agent := Delivered(AgentOf(s, npub), list, outcome);
    s.(agents := s.agents[npub := agent],
       answers := s.answers + if outcome.Replied? then {Answer(npub, agent.version)} else {})
  }

  function Step(s: State, l: Label): State
    requires Enabled(s, l)
  {
    match l
    case Append => s.(rows := s.rows + [Migration(MaxVersion(s.rows) + 1, true)])
    case SetApplied(v) => s.(rows := MarkApplied(s.rows, v))
    case ReadPending => s.(pendingLists := s.pendingLists + {PendingList(s.rows)})
    case ReadWatermark(p) => s.(watermarkReads := s.watermarkReads + {Answer(p, Watermark(s, p))})
    case ReadSince(p, c) => s.(catchUps := s.catchUps + {CatchUp(p, c, SinceList(s.rows, c))})
    case SendPending(p, list, o) => Send(s, p, list, o)
    case SendCatchUp(p, _, list, o) => Send(s, p, list, o)
    case Record(p, v) => s.(recorded := s.recorded[p := Max(Watermark(s, p), v)])
  }

  ghost predicate Execution(states: seq<State>, labels: seq<Label>) {
    && |states| == |labels| + 1 && states[0] == START
    && forall i | 0 <= i < |labels| :: Follows(states[i], labels[i], states[i + 1])
  }

  ghost predicate Follows(s: State, l: Label, s': State) {
    Enabled(s, l) && s' == Step(s, l)
  }

  // ----- Versions -----

  ghost predicate Numbered(rows: seq<Migration>) {
    forall i | 0 <= i < |rows| :: rows[i].version == i + 1
  }

  lemma {:induction false} MaxOfNumbered(rows: seq<Migration>)
    requires Numbered(rows)
    ensures MaxVersion(rows) == |rows|
  {
    if rows != [] {
      MaxOfNumbered(rows[..|rows| - 1]);
    }
  }

  lemma {:induction false} PendingListIs(rows: seq<Migration>)
    requires Numbered(rows)
    ensures forall v: nat :: v in PendingList(rows) <==> 1 <= v <= |rows| && rows[v - 1].pending
    ensures forall i, j | 0 <= i < j < |PendingList(rows)| :: PendingList(rows)[i] < PendingList(rows)[j]
  {
    if rows != [] {
      var init := rows[..|rows| - 1];
      PendingListIs(init);
      forall i | 0 <= i < |PendingList(init)| ensures PendingList(init)[i] < |rows| {
        assert PendingList(init)[i] in PendingList(init);
      }
    }
  }

  lemma {:induction false} SinceListIs(rows: seq<Migration>, since: nat)
    requires Numbered(rows)
    ensures forall v: nat :: v in SinceList(rows, since) <==> since < v <= |rows|
    ensures forall i, j | 0 <= i < j < |SinceList(rows, since)| :: SinceList(rows, since)[i] < SinceList(rows, since)[j]
    ensures |SinceList(rows, since)| == if since < |rows| then |rows| - since else 0
  {
    if rows != [] {
      var init := rows[..|rows| - 1];
      SinceListIs(init, since);
      forall i | 0 <= i < |SinceList(init, since)| ensures SinceList(init, since)[i] < |rows| {
        assert SinceList(init, since)[i] in SinceList(init, since);
      }
    }
  }

  lemma StepKeepsNumbered(s: State, l: Label)
    requires Numbered(s.rows) && Enabled(s, l)
    ensures Numbered(Step(s, l).rows) && |s.rows| <= |Step(s, l).rows|
  {
    if l.Append? {
      MaxOfNumbered(s.rows);
    }
  }

  /** Over every run the versions are exactly 1 to n, in the order of their registration. */
  lemma {:induction false} RunKeepsNumbered(states: seq<State>, labels: seq<Label>, i: nat)
    requires Execution(states, labels) && i < |states|
    ensures Numbered(states[i].rows)
  {
    if i > 0 {
      RunKeepsNumbered(states, labels, i - 1);
      assert Follows(states[i - 1], labels[i - 1], states[i]);
      StepKeepsNumbered(states[i - 1], labels[i - 1]);
    }
  }
}
