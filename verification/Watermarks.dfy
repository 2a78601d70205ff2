/** What the recorded schema versions say about the providers, over every run. */
module Watermarks {
  import opened Migrations

  /** Every version up to a provider's recorded one was delivered to it. */
  ghost predicate Sound(s: State) {
    forall p, v: nat | 1 <= v <= Watermark(s, p) :: v in AgentOf(s, p).applied
  }

  ghost predicate Inv(s: State) {
    && Numbered(s.rows)
    && (forall p :: Contiguous(AgentOf(s, p)))
    && (forall p :: Watermark(s, p) <= AgentOf(s, p).version)
    && (forall a | a in s.watermarkReads + s.answers :: a.version <= AgentOf(s, a.npub).version)
    && (forall c | c in s.catchUps :: Covers(c.list, AgentOf(s, c.npub).applied))
  }

  lemma InvIsSound(s: State)
    requires Inv(s)
    ensures Sound(s)
  {
  }

  /** Above the watermark `w`, no version that is no longer pending lies below one that is. */
  predicate Gapless(rows: seq<Migration>, w: nat) {
    forall v, u | w <= v < u < |rows| && rows[u].pending :: rows[v].pending
  }

  // ----- Runs -----

  lemma SinceCovers(s: State, p: string, c: nat)
    requires Inv(s) && Answer(p, c) in s.watermarkReads
    ensures Covers(SinceList(s.rows, c), AgentOf(s, p).applied)
  {
    SinceListIs(s.rows, c);
    assert Answer(p, c) in s.watermarkReads + s.answers;
    assert Contiguous(AgentOf(s, p));
  }

  lemma GaplessCovers(s: State, p: string)
    requires Inv(s) && Gapless(s.rows, Watermark(s, p))
    ensures Covers(PendingList(s.rows), AgentOf(s, p).applied)
  {
    PendingListIs(s.rows);
    assert Contiguous(AgentOf(s, p)) && Watermark(s, p) <= AgentOf(s, p).version;
    var list, applied := PendingList(s.rows), AgentOf(s, p).applied;
    forall u, v: nat | u in list && u !in applied && 1 <= v <= u ensures v in list || v in applied {
      if v > Watermark(s, p) && v < u {
        assert s.rows[u - 1].pending && s.rows[v - 1].pending;
      }
    }
  }

  lemma DeliveredGrows(agent: Agent, list: seq<nat>, outcome: Outcome)
    requires Possible(agent, list, outcome) && Contiguous(agent)
    requires !outcome.Failed? ==> Covers(list, agent.applied)
    ensures var after := Delivered(agent, list, outcome);
      Contiguous(after) && agent.applied <= after.applied && agent.version <= after.version
  {
    if !outcome.Failed? {
      DeliveryExactly(agent, list);
      RaisedBounds(agent, list);
    }
  }

  lemma SendKeepsInv(s: State, p: string, list: seq<nat>, outcome: Outcome)
    requires Inv(s) && Possible(AgentOf(s, p), list, outcome)
    requires !outcome.Failed? ==> Covers(list, AgentOf(s, p).applied)
    ensures Inv(Send(s, p, list, outcome))
  {
    var s' := Send(s, p, list, outcome);
    assert Contiguous(AgentOf(s, p));
    DeliveredGrows(AgentOf(s, p), list, outcome);
    forall q
      ensures AgentOf(s, q).applied <= AgentOf(s', q).applied && AgentOf(s, q).version <= AgentOf(s', q).version
    {
    }
    forall q ensures Contiguous(AgentOf(s', q)) {
      assert Contiguous(AgentOf(s, q));
    }
    forall c | c in s'.catchUps ensures Covers(c.list, AgentOf(s', c.npub).applied) {
      CoversGrows(c.list, AgentOf(s, c.npub).applied, AgentOf(s', c.npub).applied);
    }
    forall a | a in s'.watermarkReads + s'.answers ensures a.version <= AgentOf(s', a.npub).version {
      if a in s.watermarkReads + s.answers {
        assert a.version <= AgentOf(s, a.npub).version;
      }
    }
  }

  /** Steps that send nothing. */
  lemma LocalStepKeepsInv(s: State, l: Label)
    requires Inv(s) && Enabled(s, l) && !l.SendPending? && !l.SendCatchUp?
    ensures Inv(Step(s, l))
  {
    var s' := Step(s, l);
    StepKeepsNumbered(s, l);
    assert forall p :: AgentOf(s', p) == AgentOf(s, p);
    if l.ReadSince? {
      SinceCovers(s, l.npub, l.since);
    }
    if l.Record? {
      assert Answer(l.npub, l.version) in s.watermarkReads + s.answers;
    }
    forall p ensures Watermark(s', p) <= AgentOf(s', p).version {
      assert Watermark(s, p) <= AgentOf(s, p).version;
    }
    forall a | a in s'.watermarkReads + s'.answers ensures a.version <= AgentOf(s', a.npub).version {
      assert a in s.watermarkReads + s.answers || a.version == Watermark(s, a.npub);
    }
  }

  /** Catching up, recording and registering keep the watermarks sound; so does a propagation without a gap. */
  lemma StepKeepsInv(s: State, l: Label)
    requires Inv(s) && Enabled(s, l)
    requires l.SendPending? && !l.outcome.Failed? ==> Covers(l.list, AgentOf(s, l.npub).applied)
    ensures Inv(Step(s, l))
  {
    if l.SendPending? {
      SendKeepsInv(s, l.npub, l.list, l.outcome);
    } else if l.SendCatchUp? {
      assert CatchUp(l.npub, l.since, l.list) in s.catchUps;
      SendKeepsInv(s, l.npub, l.list, l.outcome);
    } else {
      LocalStepKeepsInv(s, l);
    }
  }

  /**
   * Before step `j` the list was read off the registry when, as far as the registry and the
   * provider's watermark told, it left no gap.
   */
  ghost predicate ReadWithoutGap(states: seq<State>, labels: seq<Label>, j: nat, p: string, list: seq<nat>)
    requires j <= |labels| < |states|
  {
    exists i | 0 <= i < j :: labels[i].ReadPending? && ReadsGapless(states[i], p, list)
  }

  ghost predicate ReadsGapless(s: State, p: string, list: seq<nat>) {
    list == PendingList(s.rows) && Gapless(s.rows, Watermark(s, p))
  }

  /** Every answered propagation was read without a gap for its provider. */
  ghost predicate Careful(states: seq<State>, labels: seq<Label>)
    requires |labels| < |states|
  {
    forall j | 0 <= j < |labels| && labels[j].SendPending? && !labels[j].outcome.Failed? ::
      ReadWithoutGap(states, labels, j, labels[j].npub, labels[j].list)
  }

  lemma {:induction false} AppliedGrows(states: seq<State>, labels: seq<Label>, i: nat, j: nat, p: string)
    requires Execution(states, labels) && i <= j < |states|
    ensures AgentOf(states[i], p).applied <= AgentOf(states[j], p).applied
  {
    if i < j {
      AppliedGrows(states, labels, i, j - 1, p);
      assert Follows(states[j - 1], labels[j - 1], states[j]);
    }
  }

  /** A list read without a gap still covers its provider when it is sent. */
  lemma ReadCovers(states: seq<State>, labels: seq<Label>, r: nat, j: nat, p: string, list: seq<nat>)
    requires Execution(states, labels) && r <= j < |states| && Inv(states[r]) && ReadsGapless(states[r], p, list)
    ensures Covers(list, AgentOf(states[j], p).applied)
  {
    GaplessCovers(states[r], p);
    AppliedGrows(states, labels, r, j, p);
    CoversGrows(list, AgentOf(states[r], p).applied, AgentOf(states[j], p).applied);
  }

  lemma FollowsKeepsInv(s: State, l: Label, s': State)
    requires Inv(s) && Follows(s, l, s')
    requires l.SendPending? && !l.outcome.Failed? ==> Covers(l.list, AgentOf(s, l.npub).applied)
    ensures Inv(s')
  {
    StepKeepsInv(s, l);
  }

  lemma {:induction false} RunKeepsInv(states: seq<State>, labels: seq<Label>, i: nat)
    requires Execution(states, labels) && Careful(states, labels) && i < |states|
    ensures Inv(states[i])
  {
    if i > 0 {
      RunKeepsInv(states, labels, i - 1);
      var s, l := states[i - 1], labels[i - 1];
      if l.SendPending? && !l.outcome.Failed? {
        assert ReadWithoutGap(states, labels, i - 1, l.npub, l.list);
        var r :| 0 <= r < i - 1 && labels[r].ReadPending? && ReadsGapless(states[r], l.npub, l.list);
        RunKeepsInv(states, labels, r);
        ReadCovers(states, labels, r, i - 1, l.npub, l.list);
      }
      FollowsKeepsInv(s, l, states[i]);
    }
  }

  /**
   * Under every interleaving, every version up to a recorded watermark was delivered, as long as
   * each propagated list was read when nothing above its provider's watermark had been skipped.
   */
  lemma WatermarksAreSound(states: seq<State>, labels: seq<Label>, i: nat)
    requires Execution(states, labels) && Careful(states, labels) && i < |states|
    ensures Sound(states[i])
  {
    RunKeepsInv(states, labels, i);
    InvIsSound(states[i]);
  }

  // ----- One propagation -----

  /** The pending list is sent to `p`, answered, and the answer recorded. */
  function Propagated(s: State, p: string, list: seq<nat>): State
    requires list in s.pendingLists && |list| <= MAX_MIGRATIONS
  {
    var s1 := Step(s, SendPending(p, list, Replied));
    Step(s1, Record(p, AgentOf(s1, p).version))
  }

  lemma PropagationCovers(s: State, p: string, list: seq<nat>)
    requires Inv(s) && list in s.pendingLists && |list| <= MAX_MIGRATIONS
    ensures Sound(Propagated(s, p, list)) <==> Covers(list, AgentOf(s, p).applied)
  {
    var s1 := Step(s, SendPending(p, list, Replied));
    var v := AgentOf(s1, p).version;
    var s2 := Step(s1, Record(p, v));
    assert Contiguous(AgentOf(s, p));
    DeliveryExactly(AgentOf(s, p), list);
    RaisedBounds(AgentOf(s, p), list);
    assert AgentOf(s2, p) == AgentOf(s1, p) && Watermark(s2, p) == v;
    if Covers(list, AgentOf(s, p).applied) {
      SendKeepsInv(s, p, list, Replied);
      LocalStepKeepsInv(s1, Record(p, v));
      InvIsSound(s2);
    }
    if Sound(s2) {
      assert Contiguous(AgentOf(s1, p));
    }
  }

  function UpTo(n: nat): (versions: set<nat>)
    ensures forall v: nat :: v in versions <==> 1 <= v <= n
  {
    if n == 0 then {} else UpTo(n - 1) + {n}
  }

  lemma GaplessExactly(rows: seq<Migration>, w: nat)
    requires Numbered(rows)
    ensures Covers(PendingList(rows), UpTo(w)) <==> Gapless(rows, w)
  {
    PendingListIs(rows);
    var list := PendingList(rows);
    if Covers(list, UpTo(w)) {
      forall v, u | w <= v < u < |rows| && rows[u].pending ensures rows[v].pending {
        assert u + 1 in list && v + 1 in list;
      }
    }
    if Gapless(rows, w) {
      forall u, v: nat | u in list && u !in UpTo(w) && 1 <= v <= u ensures v in list || v in UpTo(w) {
        if v > w && v < u {
          assert rows[u - 1].pending && rows[v - 1].pending;
        }
      }
    }
  }

  /**
   * A propagation to a provider that has applied just what is recorded keeps its watermark sound if
   * and only if nothing above the watermark that is no longer pending lies below something that is.
   */
  lemma PropagationExactly(s: State, p: string)
    requires Inv(s) && PendingList(s.rows) in s.pendingLists && |PendingList(s.rows)| <= MAX_MIGRATIONS
    requires AgentOf(s, p).applied == UpTo(Watermark(s, p))
    ensures Sound(Propagated(s, p, PendingList(s.rows))) <==> Gapless(s.rows, Watermark(s, p))
  {
    PropagationCovers(s, p, PendingList(s.rows));
    GaplessExactly(s.rows, Watermark(s, p));
  }

  /** Whatever the provider has applied besides, its watermark stays sound. */
  ghost predicate Safe(rows: seq<Migration>, p: string, w: nat)
    requires |PendingList(rows)| <= MAX_MIGRATIONS
  {
    forall s | Inv(s) && s.rows == rows && Watermark(s, p) == w && PendingList(rows) in s.pendingLists ::
      Sound(Propagated(s, p, PendingList(rows)))
  }

  /** On what the gateway can see, the registry and the watermark, that is the exact condition. */
  lemma SafeExactly(rows: seq<Migration>, p: string, w: nat)
    requires Numbered(rows) && |PendingList(rows)| <= MAX_MIGRATIONS
    ensures Safe(rows, p, w) <==> Gapless(rows, w)
  {
    var list := PendingList(rows);
    var s := State(rows, map[p := Agent(UpTo(w), w)], map[p := w], {}, {list}, {}, {});
    assert Inv(s) by {
      assert forall q :: Contiguous(AgentOf(s, q));
    }
    PropagationExactly(s, p);
    if Gapless(rows, w) {
      forall t | Inv(t) && t.rows == rows && Watermark(t, p) == w && list in t.pendingLists
        ensures Sound(Propagated(t, p, list))
      {
        GaplessCovers(t, p);
        PropagationCovers(t, p, list);
      }
    }
  }

  /** In particular when every version above the watermark is still pending. */
  lemma AllPendingIsGapless(rows: seq<Migration>, w: nat)
    requires forall i | w <= i < |rows| :: rows[i].pending
    ensures Gapless(rows, w)
  {
  }

  // ----- What catching up can repair -----

  /** A run from `s` to `s'` without propagations. */
  ghost predicate CatchesUp(s: State, labels: seq<Label>, s': State)
    decreases |labels|
  {
    if labels == [] then s == s'
    else !labels[0].SendPending? && Enabled(s, labels[0]) && CatchesUp(Step(s, labels[0]), labels[1..], s')
  }

  /** Such a run ends with version `v` at provider `p`. */
  ghost predicate Delivers(s: State, labels: seq<Label>, s': State, p: string, v: nat) {
    CatchesUp(s, labels, s') && v in AgentOf(s', p).applied
  }

  /**
   * A catch-up that read the provider's watermark while it was still below `v` is under way, and
   * what it has to send is not too long.
   */
  ghost predicate UnderWay(s: State, p: string, v: nat) {
    || (exists c: nat :: c < v && Answer(p, c) in s.watermarkReads && |s.rows| - c <= MAX_MIGRATIONS)
    || (exists c: nat, list :: CatchUp(p, c, list) in s.catchUps && v in list && |list| <= MAX_MIGRATIONS)
  }

  /** Without one, no step but a propagation delivers `v` or starts one. */
  lemma StaysLost(s: State, l: Label, p: string, v: nat)
    requires Numbered(s.rows) && Enabled(s, l) && !l.SendPending?
    requires v <= Watermark(s, p) && v !in AgentOf(s, p).applied && !UnderWay(s, p, v)
    ensures var s' := Step(s, l); v <= Watermark(s', p) && v !in AgentOf(s', p).applied && !UnderWay(s', p, v)
  {
    var s' := Step(s, l);
    StepKeepsNumbered(s, l);
    if l.ReadSince? && l.npub == p {
      SinceListIs(s.rows, l.since);
      assert v in SinceList(s.rows, l.since) ==> |s.rows| - l.since > MAX_MIGRATIONS;
    }
    if l.SendCatchUp? && l.npub == p {
      assert CatchUp(p, l.since, l.list) in s.catchUps;
    }
    assert forall c: nat | c < v && Answer(p, c) in s'.watermarkReads :: Answer(p, c) in s.watermarkReads;
  }

  lemma {:induction false} LostForGood(s: State, labels: seq<Label>, s': State, p: string, v: nat)
    requires Numbered(s.rows) && CatchesUp(s, labels, s')
    requires v <= Watermark(s, p) && v !in AgentOf(s, p).applied && !UnderWay(s, p, v)
    ensures v !in AgentOf(s', p).applied
    decreases |labels|
  {
    if labels != [] {
      StaysLost(s, labels[0], p, v);
      StepKeepsNumbered(s, labels[0]);
      LostForGood(Step(s, labels[0]), labels[1..], s', p, v);
    }
  }

  lemma SendDelivers(s: State, p: string, c: nat, list: seq<nat>, v: nat) returns (labels: seq<Label>, s': State)
    requires CatchUp(p, c, list) in s.catchUps && v in list && |list| <= MAX_MIGRATIONS
    ensures Delivers(s, labels, s', p, v)
  {
    labels := [SendCatchUp(p, c, list, Replied)];
    s' := Step(s, labels[0]);
    assert labels[1..] == [] && CatchesUp(s', labels[1..], s');
  }

  lemma UnderWayDelivers(s: State, p: string, v: nat) returns (labels: seq<Label>, s': State)
    requires Numbered(s.rows) && 1 <= v <= |s.rows| && UnderWay(s, p, v)
    ensures Delivers(s, labels, s', p, v)
  {
    if c: nat, list :| CatchUp(p, c, list) in s.catchUps && v in list && |list| <= MAX_MIGRATIONS {
      labels, s' := SendDelivers(s, p, c, list, v);
    } else {
      var c: nat :| c < v && Answer(p, c) in s.watermarkReads && |s.rows| - c <= MAX_MIGRATIONS;
      var read := ReadSince(p, c);
      SinceListIs(s.rows, c);
      labels, s' := SendDelivers(Step(s, read), p, c, SinceList(s.rows, c), v);
      assert ([read] + labels)[1..] == labels;
      labels := [read] + labels;
    }
  }

  /**
   * A version at or below its provider's watermark that was never delivered can still be delivered by
   * catching up if and only if a catch-up from a lower watermark is already under way.
   */
  lemma RepairedIff(s: State, p: string, v: nat)
    requires Numbered(s.rows) && 1 <= v <= |s.rows| && v <= Watermark(s, p) && v !in AgentOf(s, p).applied
    ensures (exists labels, s' :: Delivers(s, labels, s', p, v)) <==> UnderWay(s, p, v)
  {
    if UnderWay(s, p, v) {
      var labels, s' := UnderWayDelivers(s, p, v);
    } else {
      forall labels, s' | CatchesUp(s, labels, s') ensures !Delivers(s, labels, s', p, v) {
        LostForGood(s, labels, s', p, v);
      }
    }
  }

  lemma WatermarkGrows(s: State, l: Label, p: string)
    requires Enabled(s, l)
    ensures Watermark(s, p) <= Watermark(Step(s, l), p)
  {
  }

  /** A catch-up list holds what was registered above the watermark it was read from, and no more. */
  ghost predicate ListsFit(s: State) {
    && (forall c | c in s.catchUps :: Answer(c.npub, c.since) in s.watermarkReads)
    && (forall c, v | c in s.catchUps && v in c.list :: c.since < v)
  }

  lemma {:induction false} RunKeepsLists(states: seq<State>, labels: seq<Label>, i: nat)
    requires Execution(states, labels) && i < |states|
    ensures ListsFit(states[i])
  {
    if i > 0 {
      RunKeepsLists(states, labels, i - 1);
      RunKeepsNumbered(states, labels, i - 1);
      var s, l := states[i - 1], labels[i - 1];
      assert Follows(s, l, states[i]);
      if l.ReadSince? {
        SinceListIs(s.rows, l.since);
      }
    }
  }

  /** Reads made at or after state `i` are at least the watermark of then. */
  lemma {:induction false} LaterReads(states: seq<State>, labels: seq<Label>, i: nat, j: nat, a: Answer)
    requires Execution(states, labels) && i <= j < |states| && a in states[j].watermarkReads
    ensures a in states[i].watermarkReads || a.version >= Watermark(states[i], a.npub)
    ensures Watermark(states[i], a.npub) <= Watermark(states[j], a.npub)
  {
    if i < j {
      assert Follows(states[j - 1], labels[j - 1], states[j]);
      WatermarkNeverFalls(states, labels, i, j, a.npub);
      if a in states[j - 1].watermarkReads {
        LaterReads(states, labels, i, j - 1, a);
      } else {
        WatermarkNeverFalls(states, labels, i, j - 1, a.npub);
      }
    }
  }

  lemma {:induction false} WatermarkNeverFalls(states: seq<State>, labels: seq<Label>, i: nat, j: nat, p: string)
    requires Execution(states, labels) && i <= j < |states|
    ensures Watermark(states[i], p) <= Watermark(states[j], p)
  {
    if i < j {
      WatermarkNeverFalls(states, labels, i, j - 1, p);
      assert Follows(states[j - 1], labels[j - 1], states[j]);
      WatermarkGrows(states[j - 1], labels[j - 1], p);
    }
  }

  /**
   * Once a watermark has reached `v`, the only catch-up lists that still hold `v` are those whose
   * watermark was read before.
   */
  lemma OnlyEarlierReadsResend(states: seq<State>, labels: seq<Label>, i: nat, j: nat, c: CatchUp, v: nat)
    requires Execution(states, labels) && i <= j < |states| && v <= Watermark(states[i], c.npub)
    requires c in states[j].catchUps && v in c.list
    ensures Answer(c.npub, c.since) in states[i].watermarkReads && c.since < v
  {
    RunKeepsLists(states, labels, j);
    LaterReads(states, labels, i, j, Answer(c.npub, c.since));
  }

  // ----- A skipped migration -----

  // A provider is away when version 1 is pushed to the others, and back for version 2.
  const PUSHED := START.(rows := [Migration(1, true)])
  const MARKED := START.(rows := [Migration(1, false)])
  const SECOND := START.(rows := [Migration(1, false), Migration(2, true)])
  const LISTED := SECOND.(pendingLists := {[2]})
  const ANSWERED := LISTED.(agents := map["p" := Agent({2}, 2)], answers := {Answer("p", 2)})
  const RECORDED := ANSWERED.(recorded := map["p" := 2])

  lemma SkipRegisters()
    ensures Step(START, Append) == PUSHED && Step(PUSHED, SetApplied(1)) == MARKED && Step(MARKED, Append) == SECOND
  {
    MaxOfNumbered([]);
    MaxOfNumbered(MARKED.rows);
    assert MarkApplied(PUSHED.rows, 1) == MARKED.rows;
  }

  lemma SkipLists()
    ensures PendingList(SECOND.rows) == [2]
  {
    PendingSnoc([], Migration(1, false));
    PendingSnoc([Migration(1, false)], Migration(2, true));
    assert SECOND.rows == [Migration(1, false)] + [Migration(2, true)];
    assert [] + [Migration(1, false)] == [Migration(1, false)];
  }

  lemma PendingSnoc(rows: seq<Migration>, row: Migration)
    ensures PendingList(rows + [row]) == PendingList(rows) + if row.pending then [row.version] else []
  {
    assert (rows + [row])[..|rows|] == rows;
  }

  lemma SkipSends()
    ensures Enabled(LISTED, SendPending("p", [2], Replied)) && Step(LISTED, SendPending("p", [2], Replied)) == ANSWERED
    ensures Enabled(ANSWERED, Record("p", 2)) && Step(ANSWERED, Record("p", 2)) == RECORDED
  {
    var list: seq<nat> := [2];
    RaisedBounds(Agent({}, 0), list);
    assert 2 in list && Raised(Agent({}, 0), list) == 2;
    assert Elements(list) == {2};
    assert Delivered(Agent({}, 0), list, Replied) == Agent({2}, 2);
  }

  /** It is recorded at version 2 without version 1, and no catching up will ever deliver it. */
  lemma SkippedMigration() returns (states: seq<State>, labels: seq<Label>)
    ensures Execution(states, labels) && states[|labels|] == RECORDED
    ensures Watermark(RECORDED, "p") == 2 && 1 !in AgentOf(RECORDED, "p").applied && !Sound(RECORDED)
    ensures forall more, s' :: !Delivers(RECORDED, more, s', "p", 1)
  {
    SkipRegisters();
    SkipLists();
    SkipSends();
    labels := [Append, SetApplied(1), Append, ReadPending, SendPending("p", [2], Replied), Record("p", 2)];
    states := [START, PUSHED, MARKED, SECOND, LISTED, ANSWERED, RECORDED];
    assert Step(SECOND, ReadPending) == LISTED;
    RepairedIff(RECORDED, "p", 1);
  }

  /** A provider more than 200 migrations behind its watermark refuses every catch-up from there, unchanged. */
  lemma TooFarBehind(s: State, p: string, c: nat, outcome: Outcome)
    requires Inv(s) && |s.rows| > c + 200 && Possible(AgentOf(s, p), SinceList(s.rows, c), outcome)
    ensures outcome.Failed? && Delivered(AgentOf(s, p), SinceList(s.rows, c), outcome) == AgentOf(s, p)
  {
    SinceListIs(s.rows, c);
  }
}
