/** The control plane: member and storage handlers, step by step, around the mutation lock. */
module ControlPlane {
  import opened Wrappers

  type Npub = string

  datatype Role = Client | Admin
  datatype Member = Member(role: Role, active: bool)
  datatype Storage = Storage(owner: Npub, linked: bool, pinged: bool)

  /** A request that has passed its checks outside the lock and waits for the lock. */
  datatype Request =
    | Upsert(target: Npub, role: Role)
    | Remove(target: Npub)
    | Link(caller: Npub, storage: Npub)

  /** The handler that holds the lock, at its next database call. */
  datatype Task =
    | UpsertRead(target: Npub, role: Role)
    | UpsertCount(target: Npub, role: Role)
    | UpsertPut(target: Npub, role: Role)
    | RemoveRead(target: Npub)
    | RemoveCount(target: Npub)
    | RemoveRevoke(target: Npub)
    | RemoveList(target: Npub)
    | RemoveStorages(target: Npub, queue: set<Npub>, failed: bool)
    | LinkCheck(caller: Npub, storage: Npub)
    | LinkRead(caller: Npub, storage: Npub)
    | LinkWrite(caller: Npub, storage: Npub, known: bool)
    | LinkMesh(storage: Npub)
    | LinkRollback(storage: Npub)

  /** `tainted` names the members whose latest removal did not complete, and `reaping` the storages
      that the reaper has listed and not removed yet. */
  datatype State = State(
    members: map<Npub, Member>,
    storages: map<Npub, Storage>,
    waiting: set<Request>,
    holder: Option<Task>,
    tainted: set<Npub>,
    reaping: set<Npub>)

  /** A call may fail, and a failed write may have taken effect. */
  datatype Outcome = Ok | Error(effect: bool)

  datatype Label =
    | Arrive(caller: Npub, request: Request)
    | Acquire(request: Request)
    | Advance(outcome: Outcome)
    | RemoveOne(storage: Npub, outcome: Outcome)
    | Cancel(effect: bool)
    | Drop(storage: Npub)
    | Ping(storage: Npub)
    | ReapList(listed: set<Npub>)
    | Reap(storage: Npub)

  predicate Active(s: State, npub: Npub) {
    npub in s.members && s.members[npub].active
  }

  predicate ActiveAdmin(s: State, npub: Npub) {
    Active(s, npub) && s.members[npub].role == Admin
  }

  function ActiveAdmins(s: State): set<Npub> {
    set npub | npub in s.members && ActiveAdmin(s, npub)
  }

  function LinkedOf(s: State, owner: Npub): set<Npub> {
    set x | x in s.storages && s.storages[x].linked && s.storages[x].owner == owner
  }

  /** A linked storage that has never reported. */
  predicate Silent(s: State, x: Npub) {
    x in s.storages && s.storages[x].linked && !s.storages[x].pinged
  }

  /** `initialize`: the bootstrap administrators and nothing else. */
  function Start(admins: set<Npub>): State {
    State(map npub | npub in admins :: Member(Admin, true), map[], {}, None, {}, {})
  }

  // ----- Database writes -----

  function PutMember(s: State, target: Npub, role: Role): State {
    s.(members := s.members[target := Member(role, true)])
  }

  function RevokeMember(s: State, target: Npub): State {
    if target in s.members then s.(members := s.members[target := s.members[target].(active := false)]) else s
  }

  function RemoveStorage(s: State, x: Npub): State {
    if x in s.storages then s.(storages := s.storages[x := s.storages[x].(linked := false)]) else s
  }

  /** The database keeps the owner of a storage it already has, or refuses. */
  function CreateStorage(s: State, x: Npub, owner: Npub): State {
    if x !in s.storages then s.(storages := s.storages[x := Storage(owner, true, false)])
    else if s.storages[x].owner == owner then s.(storages := s.storages[x := s.storages[x].(linked := true)])
    else s
  }

  function RelinkStorage(s: State, x: Npub): State {
    if x in s.storages then s.(storages := s.storages[x := s.storages[x].(linked := true, pinged := false)]) else s
  }

  // ----- Steps -----

  function Done(s: State): State {
    s.(holder := None)
  }

  function Goto(s: State, task: Task): State {
    s.(holder := Some(task))
  }

  /** The removal of `target` ends without having completed. */
  function Broken(s: State, target: Npub): State {
    s.(holder := None, tainted := s.tainted + {target})
  }

  function Begin(request: Request): Task {
    match request
    case Upsert(t, role) => UpsertRead(t, role)
    case Remove(t) => RemoveRead(t)
    case Link(c, x) => LinkCheck(c, x)
  }

  /** The next call of the lock holder succeeds. */
  function Succeed(s: State, task: Task): State {
    match task
    case UpsertRead(t, role) =>
      if ActiveAdmin(s, t) && role == Client then Goto(s, UpsertCount(t, role)) else Goto(s, UpsertPut(t, role))
    case UpsertCount(t, role) => if |ActiveAdmins(s)| <= 1 then Done(s) else Goto(s, UpsertPut(t, role))
    case UpsertPut(t, role) => Done(PutMember(s, t, role))
    case RemoveRead(t) =>
      if t !in s.members then Done(s)
      else if ActiveAdmin(s, t) then Goto(s, RemoveCount(t)) else Goto(s, RemoveRevoke(t))
    case RemoveCount(t) => if |ActiveAdmins(s)| <= 1 then Done(s) else Goto(s, RemoveRevoke(t))
    case RemoveRevoke(t) => Goto(RevokeMember(s, t), RemoveList(t))
    case RemoveList(t) => Goto(s, RemoveStorages(t, LinkedOf(s, t), false))
    case RemoveStorages(t, queue, failed) =>
      if queue != {} then s
      else if failed then Broken(s, t) else Done(s).(tainted := s.tainted - {t})
    case LinkCheck(c, x) => if Active(s, c) then Goto(s, LinkRead(c, x)) else Done(s)
    case LinkRead(c, x) =>
      if x in s.storages && s.storages[x].owner != c then Done(s) else Goto(s, LinkWrite(c, x, x in s.storages))
    case LinkWrite(c, x, known) => Goto(if known then RelinkStorage(s, x) else CreateStorage(s, x, c), LinkMesh(x))
    case LinkMesh(x) => Done(s)
    case LinkRollback(x) => Done(RemoveStorage(s, x))
  }

  /** The next call of the lock holder fails; a write may have taken effect all the same. */
  function Fail(s: State, task: Task, effect: bool): State {
    match task
    case UpsertPut(t, role) => Done(if effect then PutMember(s, t, role) else s)
    case RemoveRevoke(t) => Broken(if effect then RevokeMember(s, t) else s, t)
    case RemoveList(t) => Broken(s, t)
    case RemoveStorages(t, queue, failed) => s
    case LinkWrite(c, x, known) =>
      Done(if !effect then s else if known then RelinkStorage(s, x) else CreateStorage(s, x, c))
    case LinkMesh(x) => Goto(s, LinkRollback(x))
    case LinkRollback(x) => Done(if effect then RemoveStorage(s, x) else s)
    case _ => Done(s)
  }

  /** The handler is dropped during its next call, and the lock with it. */
  function Abandon(s: State, task: Task, effect: bool): State {
    if task.RemoveStorages? then Broken(s, task.target)
    else if task.LinkMesh? then Done(s)
    else Fail(s, task, effect)
  }

  /** One storage of the member being removed. */
  function TakeOne(s: State, task: Task, x: Npub, outcome: Outcome): State
    requires task.RemoveStorages?
  {
    var s1 := if outcome.Ok? || outcome.effect then RemoveStorage(s, x) else s;
    Goto(s1, task.(queue := task.queue - {x}, failed := task.failed || outcome.Error?))
  }

  predicate Enabled(s: State, l: Label) {
    match l
    case Arrive(caller, r) =>
      (match r
       case Upsert(_, _) => ActiveAdmin(s, caller)
       case Remove(t) => ActiveAdmin(s, caller) && caller != t
       case Link(c, _) => c == caller)
    case Acquire(r) => r in s.waiting && s.holder.None?
    case Advance(_) => s.holder.Some? && !(s.holder.value.RemoveStorages? && s.holder.value.queue != {})
    case RemoveOne(x, _) => s.holder.Some? && s.holder.value.RemoveStorages? && x in s.holder.value.queue
    case Cancel(_) => s.holder.Some?
    case Drop(_) => true
    case Ping(_) => true
    case ReapList(listed) => forall x | x in listed :: Silent(s, x)
    case Reap(x) => x in s.reaping
  }

  function Step(s: State, l: Label): State
    requires Enabled(s, l)
  {
    match l
    case Arrive(_, r) => s.(waiting := s.waiting + {r})
    case Acquire(r) => Goto(s, Begin(r))
    case Advance(outcome) =>
      if outcome.Ok? then Succeed(s, s.holder.value) else Fail(s, s.holder.value, outcome.effect)
    case RemoveOne(x, outcome) => TakeOne(s, s.holder.value, x, outcome)
    case Cancel(effect) => Abandon(s, s.holder.value, effect)
    case Drop(x) => RemoveStorage(s, x)
    case Ping(x) => if x in s.storages then s.(storages := s.storages[x := s.storages[x].(pinged := true)]) else s
    case ReapList(listed) => s.(reaping := listed)
    case Reap(x) => RemoveStorage(s, x).(reaping := s.reaping - {x})
  }

  ghost predicate Execution(states: seq<State>, labels: seq<Label>, admins: set<Npub>) {
    && |states| == |labels| + 1 && states[0] == Start(admins)
    && forall i | 0 <= i < |labels| :: Follows(states[i], labels[i], states[i + 1])
  }

  ghost predicate Follows(s: State, l: Label, s': State) {
    Enabled(s, l) && s' == Step(s, l)
  }

  // ----- At least one active administrator -----

  ghost predicate HasAdmin(s: State) {
    exists a :: ActiveAdmin(s, a)
  }

  ghost predicate AnotherAdmin(s: State, target: Npub) {
    exists a :: a != target && ActiveAdmin(s, a)
  }

  /** A holder about to take rights away knows that another administrator remains. */
  ghost predicate AdminInv(s: State) {
    && HasAdmin(s)
    && (s.holder.Some? ==>
      match s.holder.value
      case UpsertPut(t, role) => role == Admin || AnotherAdmin(s, t)
      case RemoveRevoke(t) => AnotherAdmin(s, t)
      case _ => true)
  }

  /** More than one active administrator: one of them is not the target. */
  lemma CountFindsAnother(s: State, target: Npub)
    requires |ActiveAdmins(s)| > 1
    ensures AnotherAdmin(s, target)
  {
    var others := ActiveAdmins(s) - {target};
    if others == {} {
      assert ActiveAdmins(s) <= {target};
      SubsetSize(ActiveAdmins(s), {target});
    } else {
      var a :| a in others;
      assert ActiveAdmin(s, a);
    }
  }

  lemma {:induction false} SubsetSize(a: set<Npub>, b: set<Npub>)
    requires a <= b
    ensures |a| <= |b|
  {
    if a != {} {
      var x :| x in a;
      SubsetSize(a - {x}, b - {x});
    }
  }

  lemma SameMembersSameAdmins(s: State, s': State)
    requires s'.members == s.members
    ensures HasAdmin(s) ==> HasAdmin(s')
    ensures forall t :: AnotherAdmin(s, t) ==> AnotherAdmin(s', t)
  {
    assert forall a :: ActiveAdmin(s, a) ==> ActiveAdmin(s', a);
  }

  lemma PutKeepsAdmin(s: State, t: Npub, role: Role)
    requires HasAdmin(s) && (role == Admin || AnotherAdmin(s, t))
    ensures HasAdmin(PutMember(s, t, role))
  {
    var s' := PutMember(s, t, role);
    if role == Admin {
      assert ActiveAdmin(s', t);
    } else {
      var a :| a != t && ActiveAdmin(s, a);
      assert ActiveAdmin(s', a);
    }
  }

  lemma RevokeKeepsAdmin(s: State, t: Npub)
    requires AnotherAdmin(s, t)
    ensures HasAdmin(RevokeMember(s, t))
  {
    var a :| a != t && ActiveAdmin(s, a);
    assert ActiveAdmin(RevokeMember(s, t), a);
  }

  lemma NotAdminLeavesAnother(s: State, t: Npub)
    requires HasAdmin(s) && !ActiveAdmin(s, t)
    ensures AnotherAdmin(s, t)
  {
    var a :| ActiveAdmin(s, a);
  }

  lemma HolderKeepsAdmin(s: State, l: Label)
    requires AdminInv(s) && Enabled(s, l) && (l.Advance? || l.Cancel?)
    ensures AdminInv(Step(s, l))
  {
    var task, s' := s.holder.value, Step(s, l);
    if task.UpsertPut? {
      PutKeepsAdmin(s, task.target, task.role);
      SameMembersSameAdmins(PutMember(s, task.target, task.role), Done(PutMember(s, task.target, task.role)));
      SameMembersSameAdmins(s, Done(s));
    } else if task.RemoveRevoke? {
      var s1 := RevokeMember(s, task.target);
      RevokeKeepsAdmin(s, task.target);
      SameMembersSameAdmins(s1, Goto(s1, RemoveList(task.target)));
      SameMembersSameAdmins(s1, Broken(s1, task.target));
      SameMembersSameAdmins(s, Broken(s, task.target));
    } else {
      SameMembersSameAdmins(s, s');
      if task.UpsertRead? && !ActiveAdmin(s, task.target) {
        NotAdminLeavesAnother(s, task.target);
      } else if task.RemoveRead? && !ActiveAdmin(s, task.target) {
        NotAdminLeavesAnother(s, task.target);
      } else if (task.UpsertCount? || task.RemoveCount?) && |ActiveAdmins(s)| > 1 {
        CountFindsAnother(s, task.target);
      }
    }
  }

  lemma StepKeepsAdmin(s: State, l: Label)
    requires AdminInv(s) && Enabled(s, l)
    ensures AdminInv(Step(s, l))
  {
    if l.Advance? || l.Cancel? {
      HolderKeepsAdmin(s, l);
    } else {
      SameMembersSameAdmins(s, Step(s, l));
    }
  }

  /** Once there is an active administrator there always is one, whoever removes or demotes whom. */
  lemma {:induction false} AnAdminRemains(states: seq<State>, labels: seq<Label>, admins: set<Npub>, i: nat)
    requires Execution(states, labels, admins) && admins != {} && i < |states|
    ensures AdminInv(states[i])
  {
    if i == 0 {
      var a :| a in admins;
      assert ActiveAdmin(states[0], a);
    } else {
      AnAdminRemains(states, labels, admins, i - 1);
      assert Follows(states[i - 1], labels[i - 1], states[i]);
      StepKeepsAdmin(states[i - 1], labels[i - 1]);
    }
  }

  // ----- Owners -----

  /** Every storage of `s` is still there in `s'`, with its owner. */
  ghost predicate OwnersKept(s: State, s': State) {
    forall x | x in s.storages :: x in s'.storages && s'.storages[x].owner == s.storages[x].owner
  }

  lemma SucceedKeepsOwners(s: State, task: Task)
    ensures OwnersKept(s, Succeed(s, task))
  {
  }

  lemma FailKeepsOwners(s: State, task: Task, effect: bool)
    ensures OwnersKept(s, Fail(s, task, effect))
  {
  }

  lemma StepKeepsOwners(s: State, l: Label)
    requires Enabled(s, l)
    ensures OwnersKept(s, Step(s, l))
  {
    if l.Advance? {
      SucceedKeepsOwners(s, s.holder.value);
      FailKeepsOwners(s, s.holder.value, l.outcome.Error? && l.outcome.effect);
    } else if l.Cancel? {
      FailKeepsOwners(s, s.holder.value, l.effect);
    }
  }

  lemma {:induction false} OwnersStay(states: seq<State>, labels: seq<Label>, admins: set<Npub>, i: nat, j: nat)
    requires Execution(states, labels, admins) && i <= j < |states|
    ensures OwnersKept(states[i], states[j])
  {
    if i < j {
      OwnersStay(states, labels, admins, i, j - 1);
      var s, l := states[j - 1], labels[j - 1];
      assert Follows(s, l, states[j]);
      StepKeepsOwners(s, l);
      OwnersChain(states[i], s, states[j]);
    }
  }

  lemma OwnersChain(a: State, b: State, c: State)
    requires OwnersKept(a, b) && OwnersKept(b, c)
    ensures OwnersKept(a, c)
  {
  }

  /** The owner of a storage never changes, and no storage is forgotten. */
  lemma OwnerNeverChanges(states: seq<State>, labels: seq<Label>, admins: set<Npub>, i: nat, j: nat, x: Npub)
    requires Execution(states, labels, admins) && i <= j < |states| && x in states[i].storages
    ensures x in states[j].storages && states[j].storages[x].owner == states[i].storages[x].owner
  {
    OwnersStay(states, labels, admins, i, j);
  }

  // ----- Linked storages belong to active members -----

  /** The running removal of `owner` will still take care of storage `x`. */
  predicate BeingRemoved(s: State, owner: Npub, x: Npub) {
    s.holder.Some? &&
    match s.holder.value
    case RemoveList(t) => t == owner
    case RemoveStorages(t, queue, failed) => t == owner && (failed || x in queue)
    case _ => false
  }

  /** A linked storage has an active owner, unless a removal of the owner is under way or did not complete. */
  ghost predicate Accounted(s: State, x: Npub)
    requires x in s.storages
  {
    var owner := s.storages[x].owner;
    s.storages[x].linked ==> Active(s, owner) || owner in s.tainted || BeingRemoved(s, owner, x)
  }

  /** What the lock holder knows. */
  ghost predicate HolderKnows(s: State) {
    s.holder.Some? ==>
      match s.holder.value
      case LinkRead(c, x) => Active(s, c)
      case LinkWrite(c, x, known) =>
        Active(s, c) && (x in s.storages <==> known) && (known ==> s.storages[x].owner == c)
      case RemoveStorages(t, queue, failed) => !failed ==> LinkedOf(s, t) <= queue
      case _ => true
  }

  ghost predicate LinkInv(s: State) {
    HolderKnows(s) && forall x | x in s.storages :: Accounted(s, x)
  }

  lemma AdvanceKeepsLinks(s: State, l: Label)
    requires LinkInv(s) && Enabled(s, l) && l.Advance?
    ensures LinkInv(Step(s, l))
  {
    var s' := Step(s, l);
    forall x | x in s'.storages ensures Accounted(s', x) {
      if x in s.storages {
        assert Accounted(s, x);
        assert s.storages[x].linked ==> x in LinkedOf(s, s.storages[x].owner);
      }
    }
  }

  lemma CancelKeepsLinks(s: State, l: Label)
    requires LinkInv(s) && Enabled(s, l) && l.Cancel?
    ensures LinkInv(Step(s, l))
  {
  }

  lemma RemoveOneKeepsLinks(s: State, l: Label)
    requires LinkInv(s) && Enabled(s, l) && l.RemoveOne?
    ensures LinkInv(Step(s, l))
  {
  }

  lemma OtherKeepsLinks(s: State, l: Label)
    requires LinkInv(s) && Enabled(s, l) && !l.Advance? && !l.Cancel? && !l.RemoveOne?
    ensures LinkInv(Step(s, l))
  {
  }

  lemma StepKeepsLinks(s: State, l: Label)
    requires LinkInv(s) && Enabled(s, l)
    ensures LinkInv(Step(s, l))
  {
    if l.Advance? {
      AdvanceKeepsLinks(s, l);
    } else if l.Cancel? {
      CancelKeepsLinks(s, l);
    } else if l.RemoveOne? {
      RemoveOneKeepsLinks(s, l);
    } else {
      OtherKeepsLinks(s, l);
    }
  }

  lemma {:induction false} RunKeepsLinks(states: seq<State>, labels: seq<Label>, admins: set<Npub>, i: nat)
    requires Execution(states, labels, admins) && i < |states|
    ensures LinkInv(states[i])
  {
    if i > 0 {
      RunKeepsLinks(states, labels, admins, i - 1);
      assert Follows(states[i - 1], labels[i - 1], states[i]);
      StepKeepsLinks(states[i - 1], labels[i - 1]);
    }
  }

  /**
   * Whenever the lock is free, a linked storage belongs to an active member, unless the latest
   * removal of that member did not complete.
   */
  lemma LinkedMeansActiveOwner(states: seq<State>, labels: seq<Label>, admins: set<Npub>, i: nat, x: Npub)
    requires Execution(states, labels, admins) && i < |states| && states[i].holder.None?
    requires x in states[i].storages && states[i].storages[x].linked
    requires states[i].storages[x].owner !in states[i].tainted
    ensures Active(states[i], states[i].storages[x].owner)
  {
    RunKeepsLinks(states, labels, admins, i);
    assert Accounted(states[i], x);
  }

  /** A removal that completes leaves its member without linked storages, whatever failed before. */
  lemma CompletedRemovalCleans(states: seq<State>, labels: seq<Label>, admins: set<Npub>, i: nat)
    requires Execution(states, labels, admins) && i < |labels| && labels[i] == Advance(Ok)
    requires states[i].holder.Some? && states[i].holder.value.RemoveStorages? && !states[i].holder.value.failed
    ensures var t := states[i].holder.value.target;
      states[i + 1].holder.None? && t !in states[i + 1].tainted && LinkedOf(states[i + 1], t) == {}
  {
    RunKeepsLinks(states, labels, admins, i);
    assert Follows(states[i], labels[i], states[i + 1]);
    var t := states[i].holder.value.target;
    assert LinkedOf(states[i + 1], t) == LinkedOf(states[i], t) <= {};
  }

  /** This call takes storage `x` off the linked ones. */
  predicate Unlinks(l: Label, x: Npub) {
    l == Drop(x) || l == Reap(x) || (l.RemoveOne? && l.storage == x && (l.outcome.Ok? || l.outcome.effect))
  }

  ghost predicate Untouched(labels: seq<Label>, a: nat, b: nat, x: Npub)
    requires b <= |labels|
  {
    forall i | a <= i < b :: !Unlinks(labels[i], x)
  }

  predicate AtStorages(s: State, t: Npub) {
    s.holder.Some? && s.holder.value.RemoveStorages? && s.holder.value.target == t
  }

  lemma RemovalStep(s: State, l: Label, t: Npub, x: Npub)
    requires AtStorages(s, t) && Enabled(s, l) && (AtStorages(Step(s, l), t) || l == Advance(Ok))
    ensures x in LinkedOf(Step(s, l), t) <==> x in LinkedOf(s, t) && !Unlinks(l, x)
  {
  }

  /** While a removal of `t` works through its storages, those calls decide what stays linked. */
  lemma {:induction false} RemovalLeaves(states: seq<State>, labels: seq<Label>, admins: set<Npub>, t: Npub,
                                         a: nat, b: nat, x: Npub)
    requires Execution(states, labels, admins) && a <= b < |states|
    requires forall i | a <= i <= b :: AtStorages(states[i], t)
    ensures x in LinkedOf(states[b], t) <==> x in LinkedOf(states[a], t) && Untouched(labels, a, b, x)
    decreases b
  {
    if a < b {
      RemovalLeaves(states, labels, admins, t, a, b - 1, x);
      assert Follows(states[b - 1], labels[b - 1], states[b]);
      RemovalStep(states[b - 1], labels[b - 1], t, x);
    }
  }

  /**
   * A removal that runs to its end, with or without failures, leaves linked exactly the storages that
   * were linked when it listed them, whose call had no effect and that nobody dropped meanwhile.
   */
  lemma FinishedRemovalLeaves(states: seq<State>, labels: seq<Label>, admins: set<Npub>, t: Npub, a: nat, b: nat)
    requires Execution(states, labels, admins) && a < b < |labels|
    requires states[a].holder == Some(RemoveList(t)) && labels[a] == Advance(Ok) && labels[b] == Advance(Ok)
    requires forall i | a < i <= b :: AtStorages(states[i], t)
    ensures states[b + 1].holder.None?
    ensures forall x ::
      x in LinkedOf(states[b + 1], t) <==> x in LinkedOf(states[a], t) && Untouched(labels, a + 1, b, x)
  {
    assert Follows(states[a], labels[a], states[a + 1]) && Follows(states[b], labels[b], states[b + 1]);
    forall x
      ensures x in LinkedOf(states[b + 1], t) <==> x in LinkedOf(states[a], t) && Untouched(labels, a + 1, b, x)
    {
      RemovalLeaves(states, labels, admins, t, a + 1, b, x);
      RemovalStep(states[b], labels[b], t, x);
    }
  }

  /** The labels can be taken one after the other, from `s` to `s'`. */
  ghost predicate Leads(s: State, labels: seq<Label>, s': State)
    decreases |labels|
  {
    if labels == [] then s == s'
    else Enabled(s, labels[0]) && Leads(Step(s, labels[0]), labels[1..], s')
  }

  lemma LeadsStep(s: State, l: Label, rest: seq<Label>, s': State)
    requires Enabled(s, l) && Leads(Step(s, l), rest, s')
    ensures Leads(s, [l] + rest, s')
  {
    assert ([l] + rest)[1..] == rest;
  }

  /**
   * From wherever a member other than the administrators has one linked storage, a removal whose
   * storage call fails ends with the lock free and the storage linked to a revoked member.
   */
  lemma PartialRemoval(s: State, admin: Npub, m: Npub, x: Npub) returns (labels: seq<Label>, s': State)
    requires s.holder.None? && ActiveAdmin(s, admin) && m in s.members && s.members[m].role == Client
    requires LinkedOf(s, m) == {x}
    ensures Leads(s, labels, s') && s'.holder.None?
    ensures x in s'.storages && s'.storages[x].linked && s'.storages[x].owner == m && !Active(s', m)
  {
    var r := Remove(m);
    var s1 := Step(s, Arrive(admin, r));
    var s2 := Step(s1, Acquire(r));
    var s3 := Step(s2, Advance(Ok));
    assert s3.holder == Some(RemoveRevoke(m));
    var s4 := Step(s3, Advance(Ok));
    assert LinkedOf(s4, m) == LinkedOf(s, m);
    var s5 := Step(s4, Advance(Ok));
    assert s5.holder == Some(RemoveStorages(m, {x}, false));
    var fail := RemoveOne(x, Error(false));
    var s6 := Step(s5, fail);
    assert {x} - {x} == {};
    s' := Step(s6, Advance(Ok));
    assert x in LinkedOf(s, m);
    labels := [];
    LeadsStep(s6, Advance(Ok), labels, s');
    labels := [Advance(Ok)] + labels;
    LeadsStep(s5, fail, labels, s');
    labels := [fail] + labels;
    LeadsStep(s4, Advance(Ok), labels, s');
    labels := [Advance(Ok)] + labels;
    LeadsStep(s3, Advance(Ok), labels, s');
    labels := [Advance(Ok)] + labels;
    LeadsStep(s2, Advance(Ok), labels, s');
    labels := [Advance(Ok)] + labels;
    LeadsStep(s1, Acquire(r), labels, s');
    labels := [Acquire(r)] + labels;
    LeadsStep(s, Arrive(admin, r), labels, s');
    labels := [Arrive(admin, r)] + labels;
  }

  lemma {:induction false} LeadsOn(s: State, a: seq<Label>, m: State, b: seq<Label>, s': State)
    requires Leads(s, a, m) && Leads(m, b, s')
    ensures Leads(s, a + b, s')
    decreases |a|
  {
    if a == [] {
      assert a + b == b;
    } else {
      LeadsOn(Step(s, a[0]), a[1..], m, b, s');
      assert (a + b)[1..] == a[1..] + b;
    }
  }

  lemma LeadsSnoc(s: State, labels: seq<Label>, m: State, l: Label) returns (s': State)
    requires Leads(s, labels, m) && Enabled(m, l)
    ensures s' == Step(m, l) && Leads(s, labels + [l], s')
  {
    s' := Step(m, l);
    LeadsStep(m, l, [], s');
    assert [l] + [] == [l];
    LeadsOn(s, labels, m, [l], s');
  }

  /** An administrator adds a client. */
  lemma AddClient(s: State, admin: Npub, m: Npub) returns (labels: seq<Label>, s': State)
    requires s.holder.None? && ActiveAdmin(s, admin) && m !in s.members
    ensures Leads(s, labels, s') && s'.holder.None?
    ensures s'.members == s.members[m := Member(Client, true)] && s'.storages == s.storages
  {
    var r := Upsert(m, Client);
    labels, s' := [], s;
    s' := LeadsSnoc(s, labels, s', Arrive(admin, r));
    labels := labels + [Arrive(admin, r)];
    s' := LeadsSnoc(s, labels, s', Acquire(r));
    labels := labels + [Acquire(r)];
    s' := LeadsSnoc(s, labels, s', Advance(Ok));
    labels := labels + [Advance(Ok)];
    s' := LeadsSnoc(s, labels, s', Advance(Ok));
    labels := labels + [Advance(Ok)];
  }

  /** An active member links a storage that is new to the mesh. */
  lemma LinkNew(s: State, m: Npub, x: Npub) returns (labels: seq<Label>, s': State)
    requires s.holder.None? && Active(s, m) && x !in s.storages
    ensures Leads(s, labels, s') && s'.holder.None?
    ensures s'.members == s.members && s'.storages == s.storages[x := Storage(m, true, false)]
  {
    var r := Link(m, x);
    labels, s' := [], s;
    s' := LeadsSnoc(s, labels, s', Arrive(m, r));
    labels := labels + [Arrive(m, r)];
    s' := LeadsSnoc(s, labels, s', Acquire(r));
    labels := labels + [Acquire(r)];
    s' := LeadsSnoc(s, labels, s', Advance(Ok));
    labels := labels + [Advance(Ok)];
    s' := LeadsSnoc(s, labels, s', Advance(Ok));
    labels := labels + [Advance(Ok)];
    s' := LeadsSnoc(s, labels, s', Advance(Ok));
    labels := labels + [Advance(Ok)];
    s' := LeadsSnoc(s, labels, s', Advance(Ok));
    labels := labels + [Advance(Ok)];
  }

  /** From the bootstrap administrators alone, every other member and every storage can come to that end. */
  lemma RevokedOwnerIsReachable(admins: set<Npub>, admin: Npub, m: Npub, x: Npub)
    returns (labels: seq<Label>, s': State)
    requires admin in admins && m !in admins
    ensures Leads(Start(admins), labels, s') && s'.holder.None?
    ensures x in s'.storages && s'.storages[x].linked && s'.storages[x].owner == m && !Active(s', m)
  {
    var s := Start(admins);
    var a, s1 := AddClient(s, admin, m);
    var b, s2 := LinkNew(s1, m, x);
    assert LinkedOf(s2, m) == {x};
    var c, s3 := PartialRemoval(s2, admin, m, x);
    LeadsOn(s1, b, s2, c, s3);
    LeadsOn(s, a, s1, b + c, s3);
    labels, s' := a + (b + c), s3;
  }
}
