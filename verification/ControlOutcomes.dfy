/** What the control-plane handlers come to when nothing fails, and what the reaper takes away. */
module ControlOutcomes {
  import opened Wrappers
  import opened ControlPlane

  // ----- Handlers that nothing disturbs -----

  /** The steps of a handler whose every call succeeds. */
  predicate Own(l: Label) {
    l == Advance(Ok) || (l.RemoveOne? && l.outcome.Ok?)
  }

  /** The lock holder of `s` goes on, without a failure, until it has released the lock. */
  ghost predicate Smooth(s: State, labels: seq<Label>, s': State) {
    Leads(s, labels, s') && s'.holder.None? && forall l | l in labels :: Own(l)
  }

  lemma SmoothRest(s: State, labels: seq<Label>, s': State)
    requires Smooth(s, labels, s') && labels != []
    ensures Own(labels[0]) && Enabled(s, labels[0]) && Smooth(Step(s, labels[0]), labels[1..], s')
  {
    assert labels[0] in labels;
    forall l | l in labels[1..] ensures Own(l) {
      assert l in labels;
    }
  }

  lemma Forced(s: State, labels: seq<Label>, s': State)
    requires Smooth(s, labels, s') && s.holder.Some? && !s.holder.value.RemoveStorages?
    ensures labels != [] && Smooth(Succeed(s, s.holder.value), labels[1..], s')
  {
    SmoothRest(s, labels, s');
  }

  lemma Released(s: State, labels: seq<Label>, s': State)
    requires Smooth(s, labels, s') && s.holder.None?
    ensures s' == s
  {
    if labels != [] {
      SmoothRest(s, labels, s');
      assert false;
    }
  }

  /** The target is the one active administrator. */
  ghost predicate LastAdmin(s: State, target: Npub) {
    ActiveAdmin(s, target) && !AnotherAdmin(s, target)
  }

  lemma LastAdminCounts(s: State, target: Npub)
    requires ActiveAdmin(s, target)
    ensures |ActiveAdmins(s)| <= 1 <==> LastAdmin(s, target)
  {
    if |ActiveAdmins(s)| > 1 {
      CountFindsAnother(s, target);
    } else if AnotherAdmin(s, target) {
      var a :| a != target && ActiveAdmin(s, a);
      SubsetSize({a, target}, ActiveAdmins(s));
    }
  }

  /** An upsert gives the target its role and makes it active, unless that demotes the last administrator. */
  lemma UpsertOutcome(s: State, labels: seq<Label>, s': State, t: Npub, role: Role)
    requires Smooth(s, labels, s') && s.holder == Some(UpsertRead(t, role))
    ensures s' == if role == Client && LastAdmin(s, t) then s.(holder := None)
                  else s.(holder := None, members := s.members[t := Member(role, true)])
  {
    Forced(s, labels, s');
    var s1 := Succeed(s, s.holder.value);
    Forced(s1, labels[1..], s');
    var s2 := Succeed(s1, s1.holder.value);
    if s1.holder.value.UpsertCount? {
      LastAdminCounts(s, t);
      assert ActiveAdmins(s1) == ActiveAdmins(s);
      if s2.holder.Some? {
        Forced(s2, labels[1..][1..], s');
        Released(Succeed(s2, s2.holder.value), labels[1..][1..][1..], s');
      } else {
        Released(s2, labels[1..][1..], s');
      }
    } else {
      Released(s2, labels[1..][1..], s');
    }
  }

  /** The storages of `s` with those of `gone` taken off the linked ones. */
  ghost predicate UnlinkedOnly(s: State, gone: set<Npub>, s': State) {
    && s'.storages.Keys == s.storages.Keys
    && forall x | x in s.storages ::
      s'.storages[x] == if x in gone then s.storages[x].(linked := false) else s.storages[x]
  }

  lemma UnlinkOne(s: State, x: Npub, gone: set<Npub>, s': State)
    requires x in gone && UnlinkedOnly(RemoveStorage(s, x), gone - {x}, s')
    ensures UnlinkedOnly(s, gone, s')
  {
    var m := RemoveStorage(s, x);
    assert m.storages.Keys == s.storages.Keys;
    forall y | y in s.storages
      ensures s'.storages[y] == if y in gone then s.storages[y].(linked := false) else s.storages[y]
    {
      assert y in m.storages;
    }
  }

  lemma {:induction false} StoragesOutcome(s: State, labels: seq<Label>, s': State, t: Npub, queue: set<Npub>)
    requires Smooth(s, labels, s') && s.holder == Some(RemoveStorages(t, queue, false))
    ensures s'.members == s.members && UnlinkedOnly(s, queue, s')
    ensures s'.waiting == s.waiting && s'.reaping == s.reaping && s'.tainted == s.tainted - {t}
    decreases |labels|
  {
    SmoothRest(s, labels, s');
    var s1 := Step(s, labels[0]);
    if labels[0].RemoveOne? {
      var x := labels[0].storage;
      StoragesOutcome(s1, labels[1..], s', t, queue - {x});
      UnlinkOne(s, x, queue, s');
    } else {
      Released(s1, labels[1..], s');
    }
  }

  /** A removal has nothing to remove, or would remove the last administrator. */
  ghost predicate RemovalRefused(s: State, t: Npub) {
    t !in s.members || LastAdmin(s, t)
  }

  lemma ReachesRevoke(s: State, labels: seq<Label>, s': State, t: Npub)
    requires Smooth(s, labels, s') && s.holder == Some(RemoveRead(t))
    ensures RemovalRefused(s, t) ==> s' == s.(holder := None)
    ensures !RemovalRefused(s, t) ==>
      exists rest | Smooth(s.(holder := Some(RemoveRevoke(t))), rest, s') :: true
  {
    Forced(s, labels, s');
    var s1 := Succeed(s, s.holder.value);
    if s1.holder.None? {
      Released(s1, labels[1..], s');
    } else if s1.holder.value.RemoveCount? {
      LastAdminCounts(s, t);
      assert ActiveAdmins(s1) == ActiveAdmins(s);
      Forced(s1, labels[1..], s');
      var s2 := Succeed(s1, s1.holder.value);
      if s2.holder.None? {
        Released(s2, labels[1..][1..], s');
      }
    }
  }

  /**
   * A removal revokes its member, takes exactly the storages linked to that member off the linked
   * ones, and leaves every other member and storage alone; or it is refused and changes nothing.
   */
  lemma RemoveOutcome(s: State, labels: seq<Label>, s': State, t: Npub)
    requires Smooth(s, labels, s') && s.holder == Some(RemoveRead(t))
    ensures RemovalRefused(s, t) ==> s' == s.(holder := None)
    ensures !RemovalRefused(s, t) ==>
      && s'.members == s.members[t := s.members[t].(active := false)]
      && UnlinkedOnly(s, LinkedOf(s, t), s') && LinkedOf(s', t) == {} && t !in s'.tainted
  {
    ReachesRevoke(s, labels, s', t);
    if !RemovalRefused(s, t) {
      var s0 := s.(holder := Some(RemoveRevoke(t)));
      var rest :| Smooth(s0, rest, s');
      Forced(s0, rest, s');
      var s1 := Succeed(s0, s0.holder.value);
      Forced(s1, rest[1..], s');
      var s2 := Succeed(s1, s1.holder.value);
      assert LinkedOf(s1, t) == LinkedOf(s, t);
      StoragesOutcome(s2, rest[1..][1..], s', t, LinkedOf(s, t));
      NoneLinked(s, s', t);
    }
  }

  lemma NoneLinked(s: State, s': State, t: Npub)
    requires UnlinkedOnly(s, LinkedOf(s, t), s')
    ensures LinkedOf(s', t) == {}
  {
    assert forall x :: x in s'.storages ==> x in s.storages;
    assert forall x :: x in s.storages ==> x !in LinkedOf(s', t);
  }

  /** The caller is not an active member, or the storage is another member's. */
  predicate LinkRefused(s: State, c: Npub, x: Npub) {
    !Active(s, c) || (x in s.storages && s.storages[x].owner != c)
  }

  lemma WriteOutcome(s: State, labels: seq<Label>, s': State, c: Npub, x: Npub)
    requires Smooth(s, labels, s') && s.holder == Some(LinkWrite(c, x, x in s.storages))
    requires x in s.storages ==> s.storages[x].owner == c
    ensures s' == s.(holder := None, storages := s.storages[x := Storage(c, true, false)])
  {
    Forced(s, labels, s');
    var s1 := Succeed(s, s.holder.value);
    Forced(s1, labels[1..], s');
    Released(Succeed(s1, s1.holder.value), labels[1..][1..], s');
  }

  /** A link leaves the storage linked to the caller and unreported, whether it was known or not, or is refused. */
  lemma LinkOutcome(s: State, labels: seq<Label>, s': State, c: Npub, x: Npub)
    requires Smooth(s, labels, s') && s.holder == Some(LinkCheck(c, x))
    ensures s' == if LinkRefused(s, c, x) then s.(holder := None)
                  else s.(holder := None, storages := s.storages[x := Storage(c, true, false)])
  {
    Forced(s, labels, s');
    var s1, rest := Succeed(s, s.holder.value), labels[1..];
    if s1.holder.None? {
      Released(s1, rest, s');
    } else {
      Forced(s1, rest, s');
      var s2 := Succeed(s1, s1.holder.value);
      if s2.holder.None? {
        Released(s2, rest[1..], s');
      } else {
        WriteOutcome(s2, rest[1..], s', c, x);
      }
    }
  }

  /** When the mesh refuses the storage, a link that goes on undisturbed leaves it unlinked. */
  lemma RollbackOutcome(s: State, effect: bool, labels: seq<Label>, s': State, x: Npub)
    requires s.holder == Some(LinkMesh(x)) && x in s.storages
    requires Smooth(Step(s, Advance(Error(effect))), labels, s')
    ensures s' == s.(holder := None, storages := s.storages[x := s.storages[x].(linked := false)])
  {
    var s1 := Step(s, Advance(Error(effect)));
    Forced(s1, labels, s');
    Released(Succeed(s1, s1.holder.value), labels[1..], s');
  }

  // ----- Handlers that something disturbs -----

  predicate SameTables(s: State, s': State) {
    s'.members == s.members && s'.storages == s.storages
  }

  /** A call that fails leaves the tables as they were, or as its success would have left them. */
  lemma FailureTables(s: State, task: Task, effect: bool)
    ensures SameTables(if effect then Succeed(s, task) else s, Fail(s, task, effect))
  {
  }

  /** So does a call during which the handler is dropped, and the lock is free again. */
  lemma CancelOutcome(s: State, task: Task, effect: bool)
    ensures SameTables(if effect then Succeed(s, task) else s, Abandon(s, task, effect))
    ensures Abandon(s, task, effect).holder.None?
  {
    FailureTables(s, task, effect);
  }

  /** The caller may make this request: changes to members need an administrator, who cannot be removed by themself. */
  predicate MayRequest(s: State, caller: Npub, r: Request) {
    match r
    case Upsert(_, _) => ActiveAdmin(s, caller)
    case Remove(t) => ActiveAdmin(s, caller) && caller != t
    case Link(c, _) => c == caller
  }

  lemma {:induction false} WaitingWasRequested(states: seq<State>, labels: seq<Label>, admins: set<Npub>, i: nat,
                                               r: Request)
    returns (j: nat, caller: Npub)
    requires Execution(states, labels, admins) && i < |states| && r in states[i].waiting
    ensures j < i && labels[j] == Arrive(caller, r) && MayRequest(states[j], caller, r)
  {
    var s, l := states[i - 1], labels[i - 1];
    assert Follows(s, l, states[i]);
    if l.Arrive? && l.request == r {
      j, caller := i - 1, l.caller;
    } else {
      StillWaiting(s, l, r);
      j, caller := WaitingWasRequested(states, labels, admins, i - 1, r);
    }
  }

  lemma StillWaiting(s: State, l: Label, r: Request)
    requires Enabled(s, l) && r in Step(s, l).waiting && !(l.Arrive? && l.request == r)
    ensures r in s.waiting
  {
    if l.Advance? {
      HandlersDoNotRequest(s, s.holder.value, l.outcome.Error? && l.outcome.effect);
    } else if l.Cancel? {
      HandlersDoNotRequest(s, s.holder.value, l.effect);
    }
  }

  lemma HandlersDoNotRequest(s: State, task: Task, effect: bool)
    ensures Succeed(s, task).waiting == Fail(s, task, effect).waiting == s.waiting
  {
  }

  /** In every run, whoever takes the lock was requested earlier by a caller who was then allowed to. */
  lemma AcquiredWasAllowed(states: seq<State>, labels: seq<Label>, admins: set<Npub>, i: nat, r: Request)
    returns (j: nat, caller: Npub)
    requires Execution(states, labels, admins) && i < |labels| && labels[i] == Acquire(r)
    ensures j < i && labels[j] == Arrive(caller, r) && MayRequest(states[j], caller, r)
  {
    assert Follows(states[i], labels[i], states[i + 1]);
    j, caller := WaitingWasRequested(states, labels, admins, i, r);
  }

  // ----- The reaper -----

  /** Nothing between `i` and `j` lists storages anew. */
  ghost predicate SameList(labels: seq<Label>, i: nat, j: nat)
    requires j <= |labels|
  {
    forall k | i < k < j :: !labels[k].ReapList?
  }

  lemma HandlersDoNotReap(s: State, task: Task, effect: bool)
    ensures Succeed(s, task).reaping == Fail(s, task, effect).reaping == s.reaping
  {
  }

  lemma ListStays(s: State, l: Label, x: Npub)
    requires Enabled(s, l) && x in Step(s, l).reaping && !l.ReapList?
    ensures x in s.reaping
  {
    if l.Advance? {
      HandlersDoNotReap(s, s.holder.value, l.outcome.Error? && l.outcome.effect);
    } else if l.Cancel? {
      HandlersDoNotReap(s, s.holder.value, l.effect);
    }
  }

  lemma {:induction false} ListedBefore(states: seq<State>, labels: seq<Label>, admins: set<Npub>, j: nat, x: Npub)
    returns (i: nat)
    requires Execution(states, labels, admins) && j < |states| && x in states[j].reaping
    ensures i < j && labels[i].ReapList? && x in labels[i].listed && Silent(states[i], x) && SameList(labels, i, j)
  {
    var s, l := states[j - 1], labels[j - 1];
    assert Follows(s, l, states[j]);
    if l.ReapList? {
      i := j - 1;
    } else {
      ListStays(s, l, x);
      i := ListedBefore(states, labels, admins, j - 1, x);
    }
  }

  /** In every run, a storage that the reaper removes was linked and had never reported when it was listed. */
  lemma ReapedWasSilent(states: seq<State>, labels: seq<Label>, admins: set<Npub>, j: nat, x: Npub) returns (i: nat)
    requires Execution(states, labels, admins) && j < |labels| && labels[j] == Reap(x)
    ensures i < j && labels[i].ReapList? && x in labels[i].listed && Silent(states[i], x) && SameList(labels, i, j)
    ensures x in states[j + 1].storages && !states[j + 1].storages[x].linked
  {
    assert Follows(states[j], labels[j], states[j + 1]);
    i := ListedBefore(states, labels, admins, j, x);
    OwnersStay(states, labels, admins, i, j);
  }

  predicate Reported(s: State, x: Npub) {
    x in s.storages && s.storages[x].pinged
  }

  /** This call links a storage again that the database knows, and forgets its report. */
  predicate Relinks(s: State, l: Label, x: Npub) {
    && s.holder.Some? && Relinking(s.holder.value, x)
    && ((l.Advance? && (l.outcome.Ok? || l.outcome.effect)) || (l.Cancel? && l.effect))
  }

  /** This task is about to link storage `x` again. */
  predicate Relinking(task: Task, x: Npub) {
    task.LinkWrite? && task.storage == x && task.known
  }

  lemma SucceedReport(s: State, task: Task, x: Npub)
    ensures Reported(Succeed(s, task), x) <==> Reported(s, x) && !Relinking(task, x)
  {
  }

  lemma FailReport(s: State, task: Task, effect: bool, x: Npub)
    ensures Reported(Fail(s, task, effect), x) <==> Reported(s, x) && !(effect && Relinking(task, x))
  {
  }

  lemma ReportStep(s: State, l: Label, x: Npub)
    requires Enabled(s, l)
    ensures Reported(s, x) && !Relinks(s, l, x) ==> Reported(Step(s, l), x)
    ensures Reported(Step(s, l), x) ==> Reported(s, x) || l == Ping(x)
  {
    if l.Advance? {
      SucceedReport(s, s.holder.value, x);
      FailReport(s, s.holder.value, l.outcome.Error? && l.outcome.effect, x);
    } else if l.Cancel? {
      FailReport(s, s.holder.value, l.effect, x);
    }
  }

  ghost predicate RelinkedBetween(states: seq<State>, labels: seq<Label>, i: nat, j: nat, x: Npub)
    requires j <= |labels| < |states|
  {
    exists k | i < k < j :: Relinks(states[k], labels[k], x)
  }

  lemma PingReports(s: State, s': State, x: Npub)
    requires Follows(s, Ping(x), s') && x in s.storages
    ensures Reported(s', x)
  {
  }

  lemma ReportFollows(s: State, l: Label, s': State, x: Npub)
    requires Follows(s, l, s') && Reported(s, x) && !Relinks(s, l, x)
    ensures Reported(s', x)
  {
    ReportStep(s, l, x);
  }

  lemma RelinksOnly(states: seq<State>, labels: seq<Label>, i: nat, j: nat, x: Npub)
    requires i + 1 < j <= |labels| < |states| && !RelinkedBetween(states, labels, i, j, x)
    ensures !RelinkedBetween(states, labels, i, j - 1, x) && !Relinks(states[j - 1], labels[j - 1], x)
  {
  }

  /** Once a storage has reported, it has reported until it is linked again. */
  lemma {:induction false} ReportStays(states: seq<State>, labels: seq<Label>, admins: set<Npub>, i: nat, j: nat,
                                       x: Npub)
    requires Execution(states, labels, admins) && i < j < |states|
    requires labels[i] == Ping(x) && x in states[i].storages && !RelinkedBetween(states, labels, i, j, x)
    ensures Reported(states[j], x)
  {
    assert Follows(states[j - 1], labels[j - 1], states[j]);
    if j == i + 1 {
      PingReports(states[i], states[j], x);
    } else {
      RelinksOnly(states, labels, i, j, x);
      ReportStays(states, labels, admins, i, j - 1, x);
      ReportFollows(states[j - 1], labels[j - 1], states[j], x);
    }
  }

  /** A storage that has reported is not listed again until it is linked again. */
  lemma ReportedIsNotListed(states: seq<State>, labels: seq<Label>, admins: set<Npub>, i: nat, j: nat, x: Npub)
    requires Execution(states, labels, admins) && i < j < |labels|
    requires labels[i] == Ping(x) && x in states[i].storages
    requires labels[j].ReapList? && x in labels[j].listed
    ensures RelinkedBetween(states, labels, i, j, x)
  {
    assert Follows(states[j], labels[j], states[j + 1]);
    if !RelinkedBetween(states, labels, i, j, x) {
      ReportStays(states, labels, admins, i, j, x);
    }
  }

  lemma {:induction false} FirstReport(states: seq<State>, labels: seq<Label>, admins: set<Npub>, i: nat, j: nat,
                                       x: Npub)
    returns (k: nat)
    requires Execution(states, labels, admins) && i <= j < |states|
    requires !Reported(states[i], x) && Reported(states[j], x)
    ensures i <= k < j && labels[k] == Ping(x)
    decreases j
  {
    assert Follows(states[j - 1], labels[j - 1], states[j]);
    ReportStep(states[j - 1], labels[j - 1], x);
    if labels[j - 1] == Ping(x) {
      k := j - 1;
    } else {
      k := FirstReport(states, labels, admins, i, j - 1, x);
    }
  }

  /** A storage that has reported is reaped only if its report fell between the listing and the removal. */
  lemma ReapedAfterReport(states: seq<State>, labels: seq<Label>, admins: set<Npub>, j: nat, x: Npub)
    returns (i: nat, k: nat)
    requires Execution(states, labels, admins) && j < |labels| && labels[j] == Reap(x) && Reported(states[j], x)
    ensures i < k < j && labels[i].ReapList? && x in labels[i].listed && SameList(labels, i, j)
    ensures labels[k] == Ping(x)
  {
    i := ReapedWasSilent(states, labels, admins, j, x);
    k := FirstReport(states, labels, admins, i, j, x);
  }

  /** And it does happen: a silent storage that reports behind the listing is removed all the same. */
  lemma ReportedIsReaped(s: State, x: Npub) returns (s': State)
    requires Silent(s, x)
    ensures Leads(s, [ReapList({x}), Ping(x), Reap(x)], s')
    ensures Reported(s', x) && !s'.storages[x].linked
  {
    var s1 := Step(s, ReapList({x}));
    var s2 := Step(s1, Ping(x));
    s' := Step(s2, Reap(x));
    LeadsStep(s2, Reap(x), [], s');
    LeadsStep(s1, Ping(x), [Reap(x)] + [], s');
    LeadsStep(s, ReapList({x}), [Ping(x)] + ([Reap(x)] + []), s');
    assert [ReapList({x})] + ([Ping(x)] + ([Reap(x)] + [])) == [ReapList({x}), Ping(x), Reap(x)];
  }
}
