/** Each assumption of `GrowingRoster` is needed: without any one of them some run leaves
    one row on two providers. */
module RosterRaces {
  import opened Wrappers
  import opened Json
  import opened Ordering
  import opened Registry
  import opened MeshProtocol
  import opened GrowingRoster

  datatype Assumption = Growth | Atomicity | FailureClean | AckRecorded

  predicate AllowedWithout(s: State, l: Label, dropped: Assumption) {
    && (dropped != Growth ==> Grows(s, l))
    && (dropped != Atomicity ==> WholeWrite(l))
    && (dropped != FailureClean ==> CleanFailure(l))
    && (dropped != AckRecorded ==> NoAckForgotten(s, l))
  }

  ghost predicate RunWithout(states: seq<State>, labels: seq<Label>, dropped: Assumption) {
    Execution(states, labels) && forall i | 0 <= i < |labels| :: AllowedWithout(states[i], labels[i], dropped)
  }

  ghost predicate Reaches(s: State, dropped: Assumption) {
    exists states, labels :: RunWithout(states, labels, dropped) && states[|labels|] == s
  }

  lemma ExtendExecution(states: seq<State>, labels: seq<Label>, l: Label, s': State)
    requires Execution(states, labels) && Follows(states[|labels|], l, s')
    ensures Execution(states + [s'], labels + [l])
  {
    var states', labels' := states + [s'], labels + [l];
    forall i | 0 <= i < |labels'| ensures Follows(states'[i], labels'[i], states'[i + 1]) {
      if i < |labels| {
        assert Follows(states[i], labels[i], states[i + 1]);
      }
    }
  }

  lemma Then(s: State, dropped: Assumption, l: Label) returns (s': State)
    requires Reaches(s, dropped) && Enabled(s, l) && AllowedWithout(s, l, dropped)
    ensures s' == Step(s, l) && Reaches(s', dropped)
  {
    s' := Step(s, l);
    var states, labels :| RunWithout(states, labels, dropped) && states[|labels|] == s;
    ExtendExecution(states, labels, l, s');
    var states', labels' := states + [s'], labels + [l];
    forall i | 0 <= i < |labels'| ensures AllowedWithout(states'[i], labels'[i], dropped) {
      assert i < |labels| ==> states'[i] == states[i] && labels'[i] == labels[i];
    }
    assert RunWithout(states', labels', dropped) && states'[|labels'|] == s';
  }

  const ROW: Key := Key("t", "")

  function Op(id: string): WriteOp {
    WriteOp(id, ROW, Insert, map["id" := Text("")])
  }

  /** The empty row id hashes to "a" on the roster {a} and to "b" on the roster {a, b}. */
  lemma HashMoves()
    ensures SelectOwner("", ["a"], []) == Some("a")
    ensures SelectOwner("", ["a", "b"], []) == Some("b")
    ensures SelectOwner("", ["a"], ["b"]) == Some("a")
    ensures SelectOwner("", ["a", "b"], ["a"]) == Some("a")
    ensures SelectOwner("", ["a", "b"], ["b"]) == Some("b")
  {
    assert Sort(["a"]) == ["a"];
    assert ["a", "b"][1..] == ["b"];
    assert Sort(["b"]) == ["b"];
    assert Sort(["a", "b"]) == ["a", "b"];
    assert FirstActive(["b"], ["a"]) == FirstActive([], ["a"]) == None;
    SelectOwnerSticky("", ["a", "b"], "a");
    SelectOwnerSticky("", ["a", "b"], "b");
  }

  lemma OneProvider(dropped: Assumption) returns (s: State)
    ensures Reaches(s, dropped) && s == START.(tables := map["t" := "id"], roster := ["a"])
  {
    s := START;
    assert RunWithout([START], [], dropped);
    s := Then(s, dropped, RegisterTable("t", "id"));
    s := Then(s, dropped, Refresh(["a"]));
  }

  /** The state after an idle dispatcher has taken a batch of one op and got it acknowledged. */
  function Dispatched(s: State, target: string): State
    requires s.buffer != []
  {
    s.(providers := s.providers[target := ApplyOp(Db(s, target), s.buffer[0], map[])],
       sent := s.sent + {(s.buffer[0], target)},
       acks := s.acks + {(s.buffer[0].id, target)},
       dispatcher := DDraining(s.roster, s.buffer, Acked(target)))
  }

  /** The dispatcher takes a batch of one op. */
  lemma Drain(s: State, dropped: Assumption) returns (s': State)
    requires Reaches(s, dropped) && s.dispatcher.DIdle? && s.roster != [] && |s.buffer| == 1
    ensures s' == s.(dispatcher := DDraining(s.roster, s.buffer, Next)) && Reaches(s', dropped)
  {
    s' := Then(s, dropped, DSnapshot);
    s' := Then(s', dropped, DTake(1));
    assert s.buffer[..1] == s.buffer;
  }

  lemma Dispatch(s: State, dropped: Assumption, target: string) returns (s': State)
    requires Reaches(s, dropped) && s.dispatcher.DIdle? && s.roster != [] && "t" in s.tables
    requires |s.buffer| == 1 && s.buffer[0].key == ROW
    requires SelectOwner("", s.roster, Existing(s, ROW)) == Some(target)
    ensures s' == Dispatched(s, target) && Reaches(s', dropped)
  {
    s' := Drain(s, dropped);
    s' := Then(s', dropped, DChoose);
    s' := Then(s', dropped, DApply(true, true, map[]));
  }

  /** After the acknowledgement: record the owner, delete the op, end the batch. */
  lemma Settle(s: State, dropped: Assumption, op: WriteOp) returns (s': State)
    requires Reaches(s, dropped) && s.buffer == [op]
    requires AtHead(s) && s.dispatcher.phase.Acked? && s.dispatcher.queue[0] == op
    ensures Reaches(s', dropped)
    ensures s' == s.(placement := s.placement[op.key := [s.dispatcher.phase.target]], buffer := [], dispatcher := DIdle)
  {
    s' := Then(s, dropped, DPlace);
    s' := Then(s', dropped, DDelete);
    assert s'.buffer == Without([op], op.id) == Without([], op.id) == [];
    s' := Then(s', dropped, DAbort);
  }

  lemma WrittenAgain(s: State, dropped: Assumption, target: string) returns (s': State)
    requires Reaches(s, dropped) && s.dispatcher.DIdle? && s.writer.WIdle? && s.roster != []
    requires s.buffer == [] && s.tables == map["t" := "id"] && s.log == [Op("1")]
    requires SelectOwner("", s.roster, Existing(s, ROW)) == Some(target)
    ensures Reaches(s', dropped)
    ensures s' == s.(buffer := [Op("2")], log := s.log + [Op("2")], placement := s.placement[ROW := [target]])
  {
    s' := Then(s, dropped, WWrite(Op("2")));
  }

  /** A new op of the row, dispatched to `target`, on top of whatever other providers hold. */
  lemma SecondWrite(s: State, dropped: Assumption, target: string) returns (s': State)
    requires Reaches(s, dropped) && s.dispatcher.DIdle? && s.writer.WIdle? && s.roster != []
    requires s.buffer == [] && s.tables == map["t" := "id"] && s.log == [Op("1")]
    requires SelectOwner("", s.roster, Existing(s, ROW)) == Some(target)
    requires SelectOwner("", s.roster, [target]) == Some(target) && "2" !in Db(s, target).applied
    ensures Reaches(s', dropped) && Holds(s', target, ROW)
    ensures forall p | p != target && Holds(s, p, ROW) :: Holds(s', p, ROW)
  {
    s' := WrittenAgain(s, dropped, target);
    s' := Dispatch(s', dropped, target);
  }

  ghost predicate Splits(dropped: Assumption) {
    exists states, labels :: RunWithout(states, labels, dropped) && !Exclusive(states[|labels|])
  }

  lemma TwoHolders(s: State, dropped: Assumption)
    requires Reaches(s, dropped) && Holds(s, "a", ROW) && Holds(s, "b", ROW)
    ensures Splits(dropped)
  {
    assert !Exclusive(s);
  }

  const BASE: State := START.(tables := map["t" := "id"], roster := ["a", "b"])

  lemma Fresh(s: State, id: string)
    requires s.tables == map["t" := "id"] && s.roster != [] && s.log == [] && s.writer.WIdle?
    ensures CanChoose(s, Op(id))
  {
  }

  lemma EarlyChoice() returns (s: State)
    ensures Reaches(s, Atomicity)
    ensures s == START.(tables := map["t" := "id"], roster := ["a"], writer := WChosen(Op("1"), "a"))
  {
    HashMoves();
    s := OneProvider(Atomicity);
    Fresh(s, "1");
    s := Then(s, Atomicity, WChoose(Op("1")));
  }

  lemma LateWriter() returns (s: State)
    ensures Reaches(s, Atomicity)
    ensures s == BASE.(buffer := [Op("1")], log := [Op("1")], writer := WEnqueued(ROW, "a"))
  {
    s := EarlyChoice();
    s := Then(s, Atomicity, Refresh(["a", "b"]));
    s := Then(s, Atomicity, WEnqueue);
  }

  /** A writer that chose its owner before a provider joined records it after the dispatcher has
      placed the row elsewhere: the placement then names a node without the row, and the next write
      of the row goes there. */
  lemma SplitWithoutAtomicWrites()
    ensures Splits(Atomicity)
  {
    HashMoves();
    var s := LateWriter();
    s := Dispatch(s, Atomicity, "b");
    s := Settle(s, Atomicity, Op("1"));
    s := Then(s, Atomicity, WPlace);
    s := SecondWrite(s, Atomicity, "a");
    TwoHolders(s, Atomicity);
  }

  /** A provider joins while the dispatcher holds a snapshot without it. */
  lemma StaleSnapshot(dropped: Assumption) returns (s: State)
    ensures Reaches(s, dropped) && s == BASE.(dispatcher := DReady(["a"]))
  {
    s := OneProvider(dropped);
    s := Then(s, dropped, DSnapshot);
    s := Then(s, dropped, Refresh(["a", "b"]));
  }

  lemma LateJoin(dropped: Assumption) returns (s: State)
    ensures Reaches(s, dropped)
    ensures s == BASE.(buffer := [Op("1")], log := [Op("1")], placement := map[ROW := ["b"]],
                       dispatcher := DReady(["a"]))
  {
    HashMoves();
    s := StaleSnapshot(dropped);
    Fresh(s, "1");
    s := Then(s, dropped, WWrite(Op("1")));
  }

  lemma StaleBatch(dropped: Assumption) returns (s: State)
    ensures Reaches(s, dropped)
    ensures s == BASE.(buffer := [Op("1")], log := [Op("1")], placement := map[ROW := ["b"]],
                       dispatcher := DDraining(["a"], [Op("1")], Next))
  {
    s := LateJoin(dropped);
    assert s.buffer[..1] == s.buffer;
    s := Then(s, dropped, DTake(1));
  }

  /** A row written to a new provider while the dispatcher still works from the roster without it. */
  lemma StaleChoice(dropped: Assumption) returns (s: State)
    ensures Reaches(s, dropped)
    ensures s == BASE.(buffer := [Op("1")], log := [Op("1")], placement := map[ROW := ["b"]],
                       dispatcher := DDraining(["a"], [Op("1")], Chosen("a")))
  {
    s := StaleBatch(dropped);
    HashMoves();
    s := Then(s, dropped, DChoose);
  }

  lemma SplitWithoutCleanFailures()
    ensures Splits(FailureClean)
  {
    HashMoves();
    var s := StaleChoice(FailureClean);
    s := Then(s, FailureClean, DApply(false, true, map[]));
    s := Then(s, FailureClean, DAbort);
    s := Dispatch(s, FailureClean, "b");
    TwoHolders(s, FailureClean);
  }

  lemma SplitWhenAckIsForgotten()
    ensures Splits(AckRecorded)
  {
    HashMoves();
    var s := StaleChoice(AckRecorded);
    s := Then(s, AckRecorded, DApply(true, true, map[]));
    s := Then(s, AckRecorded, DAbort);
    s := Dispatch(s, AckRecorded, "b");
    TwoHolders(s, AckRecorded);
  }

  /** A row written while both providers are there. */
  lemma Written() returns (s: State)
    ensures Reaches(s, Growth)
    ensures s == BASE.(buffer := [Op("1")], log := [Op("1")], placement := map[ROW := ["b"]])
  {
    HashMoves();
    s := OneProvider(Growth);
    s := Then(s, Growth, Refresh(["a", "b"]));
    Fresh(s, "1");
    s := Then(s, Growth, WWrite(Op("1")));
  }

  /** The row is stored by the second provider and settled there. */
  lemma Settled() returns (s: State)
    ensures Reaches(s, Growth) && Holds(s, "b", ROW)
    ensures s.dispatcher.DIdle? && s.writer.WIdle? && s.buffer == [] && s.log == [Op("1")]
    ensures s.tables == map["t" := "id"] && s.placement == map[ROW := ["b"]] && "a" !in s.providers
  {
    s := Written();
    HashMoves();
    s := Dispatch(s, Growth, "b");
    s := Settle(s, Growth, Op("1"));
  }

  /** A provider that drops out of one poll; the row it holds is written again meanwhile. */
  lemma SplitWhenProvidersLeave()
    ensures Splits(Growth)
  {
    var s := Settled();
    s := Then(s, Growth, Refresh(["a"]));
    HashMoves();
    s := SecondWrite(s, Growth, "a");
    TwoHolders(s, Growth);
  }

  // ----- All of them together -----

  const ALL: set<Assumption> := {Growth, Atomicity, FailureClean, AckRecorded}

  predicate AllowedKeeping(s: State, l: Label, kept: set<Assumption>) {
    && (Growth in kept ==> Grows(s, l))
    && (Atomicity in kept ==> WholeWrite(l))
    && (FailureClean in kept ==> CleanFailure(l))
    && (AckRecorded in kept ==> NoAckForgotten(s, l))
  }

  ghost predicate RunKeeping(states: seq<State>, labels: seq<Label>, kept: set<Assumption>) {
    Execution(states, labels) && forall i | 0 <= i < |labels| :: AllowedKeeping(states[i], labels[i], kept)
  }

  /** No run that keeps these assumptions ever puts a row on two providers. */
  ghost predicate Suffices(kept: set<Assumption>) {
    forall states, labels, i | RunKeeping(states, labels, kept) && 0 <= i < |states| :: Exclusive(states[i])
  }

  lemma EachIsNeeded(a: Assumption)
    ensures Splits(a)
  {
    match a
    case Growth => SplitWhenProvidersLeave();
    case Atomicity => SplitWithoutAtomicWrites();
    case FailureClean => SplitWithoutCleanFailures();
    case AckRecorded => SplitWhenAckIsForgotten();
  }

  lemma AllSuffice(states: seq<State>, labels: seq<Label>, i: nat)
    requires RunKeeping(states, labels, ALL) && i < |states|
    ensures Exclusive(states[i])
  {
    assert forall j | 0 <= j < |labels| :: AllowedKeeping(states[j], labels[j], ALL) && Allowed(states[j], labels[j]);
    OneHolderPerRow(states, labels, i);
  }

  /** A run that gives up one assumption keeps every set without it. */
  lemma WithoutIsKeeping(states: seq<State>, labels: seq<Label>, a: Assumption, kept: set<Assumption>)
    requires RunWithout(states, labels, a) && a !in kept
    ensures RunKeeping(states, labels, kept)
  {
    forall i | 0 <= i < |labels| ensures AllowedKeeping(states[i], labels[i], kept) {
      assert AllowedWithout(states[i], labels[i], a);
    }
  }

  lemma AllOfThem()
    ensures forall a: Assumption :: a in ALL
  {
    forall a: Assumption ensures a in ALL {
      match a
      case Growth =>
      case Atomicity =>
      case FailureClean =>
      case AckRecorded =>
    }
  }

  lemma Missing(kept: set<Assumption>) returns (a: Assumption)
    requires kept != ALL
    ensures a !in kept
  {
    AllOfThem();
    assert ALL <= kept ==> kept == ALL;
    a :| a in ALL && a !in kept;
  }

  /** A set of these assumptions keeps every row on one provider, in all runs, if and only if it is all of them. */
  lemma OneHolderExactly(kept: set<Assumption>)
    ensures Suffices(kept) <==> kept == ALL
  {
    if kept == ALL {
      forall states, labels, i | RunKeeping(states, labels, kept) && 0 <= i < |states| ensures Exclusive(states[i]) {
        AllSuffice(states, labels, i);
      }
    } else {
      var a := Missing(kept);
      EachIsNeeded(a);
      var states, labels :| RunWithout(states, labels, a) && !Exclusive(states[|labels|]);
      WithoutIsKeeping(states, labels, a, kept);
    }
  }
}
