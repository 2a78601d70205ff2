/** The replay cache behind NIP-98 request authorization: `consume_event` in `auth.rs`. */
module Replay {

  type EventId = string

  /** Seconds for which a used event is remembered. */
  const REPLAY_WINDOW: real := 90.0

  function Since(now: real, earlier: real): real {
    if now < earlier then 0.0 else now - earlier
  }

  /** The entries that survive a purge at `now`. */
  function Kept(used: map<EventId, real>, now: real): map<EventId, real> {
    map id | id in used && Since(now, used[id]) <= REPLAY_WINDOW :: used[id]
  }

  class Cache {
    var used: map<EventId, real>

    constructor ()
      ensures used == map[]
    {
      used := map[];
    }

    /** Purges, then records the event; refuses it when it was still recorded. */
    method Consume(id: EventId, now: real) returns (accepted: bool)
      modifies this
      ensures used == Kept(old(used), now)[id := now]
      ensures accepted <==> id !in Kept(old(used), now)
    {
      used := map e | e in used && Since(now, used[e]) <= REPLAY_WINDOW :: used[e];
      accepted := id !in used;
      used := used[id := now];
    }
  }

  /**
   * One request: when its signature's time was checked, the clock value that it then read for the
   * cache, and the moment at which it held the cache lock.
   */
  datatype Call = Call(id: EventId, checked: real, now: real, at: real)

  /** The cache after the first `n` calls in lock order. */
  function After(calls: seq<Call>, n: nat): map<EventId, real>
    requires n <= |calls|
  {
    if n == 0 then map[] else Kept(After(calls, n - 1), calls[n - 1].now)[calls[n - 1].id := calls[n - 1].now]
  }

  predicate Accepted(calls: seq<Call>, i: nat)
    requires i < |calls|
  {
    calls[i].id !in Kept(After(calls, i), calls[i].now)
  }

  /** The cache holds what the call-by-call account says. */
  method Serve(cache: Cache, calls: seq<Call>) returns (accepted: seq<bool>)
    requires cache.used == map[]
    modifies cache
    ensures cache.used == After(calls, |calls|)
    ensures |accepted| == |calls| && forall i | 0 <= i < |calls| :: accepted[i] <==> Accepted(calls, i)
  {
    accepted := [];
    for i := 0 to |calls|
      invariant cache.used == After(calls, i) && |accepted| == i
      invariant forall j | 0 <= j < i :: accepted[j] <==> Accepted(calls, j)
    {
      var ok := cache.Consume(calls[i].id, calls[i].now);
      accepted := accepted + [ok];
    }
  }

  /** How long things may take: an event's validity, the way from its check to the clock, and to the lock. */
  datatype Bounds = Bounds(window: real, delay: real, wait: real) {
    function Total(): real {
      window + delay + wait
    }

    predicate Valid() {
      window >= 0.0 && delay >= 0.0 && wait >= 0.0
    }
  }

  /** Every event passes the time check from `begins(id)` on; locks are granted in time order. */
  ghost predicate Timely(calls: seq<Call>, begins: EventId -> real, b: Bounds) {
    && (forall i | 0 <= i < |calls| :: InTime(calls[i], begins(calls[i].id), b))
    && (forall i, j | 0 <= i < j < |calls| :: calls[i].at <= calls[j].at)
  }

  predicate InTime(call: Call, begin: real, b: Bounds) {
    && begin <= call.checked <= begin + b.window
    && call.checked <= call.now <= call.checked + b.delay
    && call.now <= call.at <= call.now + b.wait
  }

  ghost predicate AcceptedTwice(calls: seq<Call>) {
    exists i, j | 0 <= i < j < |calls| :: calls[i].id == calls[j].id && Accepted(calls, i) && Accepted(calls, j)
  }

  /** An event stays recorded until `t`, which is no later than the cache remembers its first moment. */
  lemma {:induction false} Remembered(calls: seq<Call>, begins: EventId -> real, b: Bounds, i: nat, n: nat, t: real)
    requires Timely(calls, begins, b)
    requires i < n <= |calls| && calls[n - 1].at <= t <= begins(calls[i].id) + REPLAY_WINDOW
    ensures var id := calls[i].id; id in After(calls, n) && After(calls, n)[id] >= begins(id)
  {
    assert InTime(calls[n - 1], begins(calls[n - 1].id), b);
    if i < n - 1 {
      Remembered(calls, begins, b, i, n - 1, t);
    }
  }

  /** No run accepts an event twice when validity, delay and wait together are within the cache's window. */
  lemma SingleAcceptance(calls: seq<Call>, begins: EventId -> real, b: Bounds)
    requires Timely(calls, begins, b) && b.Total() <= REPLAY_WINDOW
    ensures !AcceptedTwice(calls)
  {
    forall i, j | 0 <= i < j < |calls| && calls[i].id == calls[j].id ensures !Accepted(calls, j) {
      assert InTime(calls[j], begins(calls[j].id), b);
      Remembered(calls, begins, b, i, j, calls[j].at);
    }
  }

  /** Another request purges the event while the second request for it is on its way to the lock. */
  function PurgedMeanwhile(b: Bounds): seq<Call> {
    var t := b.Total();
    [Call("e", 0.0, 0.0, 0.0), Call("f", t, t, t), Call("e", b.window, b.window + b.delay, t)]
  }

  lemma LateLock(b: Bounds) returns (begins: EventId -> real)
    requires b.Valid() && b.Total() > REPLAY_WINDOW
    ensures Timely(PurgedMeanwhile(b), begins, b)
    ensures AcceptedTwice(PurgedMeanwhile(b))
  {
    var calls, t := PurgedMeanwhile(b), b.Total();
    begins := id => if id == "e" then 0.0 else t;
    assert After(calls, 1) == map["e" := 0.0];
    assert Kept(After(calls, 1), t) == map[];
    assert After(calls, 2) == map["f" := t];
    assert Accepted(calls, 0) && Accepted(calls, 2) && calls[0].id == calls[2].id;
  }

  /**
   * The time check comes before the clock is read, and that before the lock is taken. Bounds on the
   * three are safe, for every run, if and only if together they are within the cache's window.
   */
  lemma WindowExactly(b: Bounds)
    requires b.Valid()
    ensures (forall calls, begins | Timely(calls, begins, b) :: !AcceptedTwice(calls)) <==> b.Total() <= 90.0
  {
    if b.Total() <= REPLAY_WINDOW {
      forall calls, begins | Timely(calls, begins, b) ensures !AcceptedTwice(calls) {
        SingleAcceptance(calls, begins, b);
      }
    } else {
      var begins := LateLock(b);
    }
  }
}
