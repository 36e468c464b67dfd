/** The life of one message of the offline queue: how often it is attempted, when it is due
    again, and when it is given up. Times are in milliseconds. */
module QueueItems {
  import opened Common

  datatype Status = Pending | AwaitingAck | Retry | Dead

  /** `missedAck` says that the stored error is the one of a missed acknowledgement deadline. */
  datatype Item = Item(
    id: nat, messageId: string, topic: string, status: Status, retries: nat,
    due: Option<int>, missedAck: bool, bytes: nat, created: int)

  const MAX_INT := 2147483647

  datatype Options = Options(
    maxAge: int, maxBytes: nat, maxAttempts: nat, maxBatch: nat,
    initialDelay: nat, maxDelay: nat, ackTimeout: int)

  predicate ValidOptions(o: Options) {
    && 0 < o.maxAge && 0 < o.maxBytes && 0 < o.maxAttempts <= MAX_INT && 0 < o.maxBatch
    && 0 < o.initialDelay <= o.maxDelay && 0 < o.ackTimeout
  }

  // ---------------------------------------------------------------- back-off

  function Pow2(n: nat): (r: nat)
    ensures r >= 1
  {
    if n == 0 then 1 else 2 * Pow2(n - 1)
  }

  function Min(a: int, b: int): int {
    if a <= b then a else b
  }

  /** `n` is at least 1 for every message that the queue has marked or failed; for 0 the power
      of two is a half. */
  function RetryDelay(o: Options, n: nat): int {
    if n == 0 then Min(o.initialDelay / 2, o.maxDelay)
    else Min(o.initialDelay * Pow2(Min(n - 1, 30)), o.maxDelay)
  }

  lemma DoubleProduct(a: nat, n: nat)
    ensures a * Pow2(n + 1) == 2 * (a * Pow2(n))
  {
    assert a * (2 * Pow2(n)) == 2 * (a * Pow2(n));
  }

  /** The delay starts at the initial one, stays within the cap, and from one attempt to the
      next doubles up to the cap; beyond the thirty-first attempt it does so exactly when
      the cap has been reached by then. */
  lemma DelayDoublesExactlyWhen(o: Options, n: nat)
    requires ValidOptions(o) && n >= 1
    ensures RetryDelay(o, 1) == o.initialDelay && 0 < RetryDelay(o, n) <= o.maxDelay
    ensures RetryDelay(o, n + 1) == Min(2 * RetryDelay(o, n), o.maxDelay)
            <==> n <= 30 || o.initialDelay * Pow2(30) >= o.maxDelay
  {
    assert Pow2(0) == 1;
    assert o.initialDelay * Pow2(Min(n - 1, 30)) >= o.initialDelay by {
      assert Pow2(Min(n - 1, 30)) >= 1;
      Scale(o.initialDelay, Pow2(Min(n - 1, 30)));
    }
    if n <= 30 {
      DoubleProduct(o.initialDelay, n - 1);
    }
  }

  lemma Scale(a: nat, k: nat)
    requires k >= 1
    ensures a * k >= a
  {
    assert a * k == a + a * (k - 1);
  }

  // ---------------------------------------------------------------- what can happen to a message

  /** `Publish` is marking it as awaiting acknowledgement, `Fail` a recorded failure, `Nack` a
      retryable answer of the server, `Reject` a permanent one, `Deadline` the sweep over
      missed acknowledgement deadlines, `Revive` the operator. */
  datatype Event = Publish | Fail | Nack | Reject | Deadline | Revive

  function Buried(item: Item, missedAck: bool): Item {
    item.(status := Dead, due := None, missedAck := missedAck)
  }

  function Rescheduled(o: Options, item: Item, retries: nat, delayFor: nat, now: int): Item {
    if retries >= o.maxAttempts then Buried(item.(retries := retries), false)
    else item.(status := Retry, retries := retries, due := Some(now + RetryDelay(o, delayFor)), missedAck := false)
  }

  function OneMore(retries: nat): nat {
    if retries == MAX_INT then MAX_INT else retries + 1
  }

  /** The failure of an attempt that was marked is not counted again. */
  function FailedCount(item: Item): nat {
    if item.status == AwaitingAck then item.retries else OneMore(item.retries)
  }

  predicate MissedDeadline(o: Options, item: Item, now: int) {
    item.status == AwaitingAck && item.retries >= o.maxAttempts && item.due.Some? && item.due.value <= now
  }

  function Evolve(o: Options, item: Item, e: Event, now: int): Item {
    match e
    case Publish =>
      if item.status == Dead then item
      else item.(status := AwaitingAck, retries := OneMore(item.retries), due := Some(now + o.ackTimeout), missedAck := false)
    case Fail => if item.status == Dead then item else Rescheduled(o, item, FailedCount(item), FailedCount(item), now)
    case Nack => Rescheduled(o, item, item.retries, if item.retries >= 1 then item.retries else 1, now)
    case Reject => Buried(item, false)
    case Deadline => if MissedDeadline(o, item, now) then Buried(item, true) else item
    case Revive => if item.status == Dead then item.(status := Retry, retries := 0, due := Some(now), missedAck := false) else item
  }

  // ---------------------------------------------------------------- bounded delivery

  /** No more attempts than allowed, and whoever may still be attempted has one left. */
  predicate LifeOk(o: Options, item: Item) {
    && item.retries <= o.maxAttempts
    && (item.status == Pending || item.status == Retry ==> item.retries < o.maxAttempts)
    && (item.status == AwaitingAck ==> item.retries >= 1)
    && (item.status == Dead <==> item.due.None?)
  }

  /** Every event keeps the bound, except publishing a message that has used its attempts up. */
  lemma EvolveKeepsLifeExactlyWhen(o: Options, item: Item, e: Event, now: int)
    requires ValidOptions(o) && LifeOk(o, item)
    ensures LifeOk(o, Evolve(o, item, e, now))
            <==> e != Publish || item.status == Dead || item.retries < o.maxAttempts || o.maxAttempts == MAX_INT
  {
  }

  /** One publish and its failure, or its retryable answer, count once. */
  lemma AttemptCountsOnce(o: Options, item: Item, e: Event, published: int, now: int)
    requires ValidOptions(o) && LifeOk(o, item) && item.status != Dead && item.retries < o.maxAttempts
    requires e == Fail || e == Nack
    ensures var after := Evolve(o, Evolve(o, item, Publish, published), e, now);
            && after.retries == item.retries + 1
            && (after.status == Dead <==> item.retries + 1 == o.maxAttempts)
            && (after.status != Dead ==> after.due == Some(now + RetryDelay(o, after.retries)))
  {
  }

  /** The events that deliver a live message without the operator: publishing while there is
      an attempt left, the failure of any attempt, the answer to a published one, the sweep
      when it applies. */
  predicate Progresses(o: Options, item: Item, e: Event, now: int) {
    && item.status != Dead
    && match e
       case Publish => item.retries < o.maxAttempts
       case Fail => true
       case Nack => item.status == AwaitingAck
       case Reject => true
       case Deadline => MissedDeadline(o, item, now)
       case Revive => false
  }

  function Rank(o: Options, item: Item): nat
    requires item.retries <= o.maxAttempts
  {
    if item.status == Dead then 0
    else 2 * (o.maxAttempts - item.retries) + (if item.status == AwaitingAck then 2 else 1)
  }

  /** The event neither brings a dead message back nor publishes one without an attempt left. */
  predicate Unraising(o: Options, item: Item, e: Event) {
    match e
    case Publish => item.status != Dead ==> item.retries < o.maxAttempts
    case Nack => item.status == Dead ==> item.retries >= o.maxAttempts
    case Revive => item.status != Dead
    case _ => true
  }

  /** No such event raises the rank, and each that makes progress lowers it. */
  lemma ProgressLowersRank(o: Options, item: Item, e: Event, now: int)
    requires ValidOptions(o) && LifeOk(o, item) && Unraising(o, item, e)
    ensures LifeOk(o, Evolve(o, item, e, now))
    ensures Rank(o, Evolve(o, item, e, now)) + (if Progresses(o, item, e, now) then 1 else 0) <= Rank(o, item)
  {
  }

  datatype Timed = Timed(event: Event, now: int)

  function After(o: Options, item: Item, events: seq<Timed>): Item
    decreases |events|
  {
    if events == [] then item else After(o, Evolve(o, item, events[0].event, events[0].now), events[1..])
  }

  /** How often the message is published while it is live. */
  function Publishes(o: Options, item: Item, events: seq<Timed>): nat
    decreases |events|
  {
    if events == [] then 0
    else (if events[0].event == Publish && item.status != Dead then 1 else 0)
         + Publishes(o, Evolve(o, item, events[0].event, events[0].now), events[1..])
  }

  /** The operator does not revive it, and it is only published with an attempt left. */
  predicate WithinLimit(o: Options, item: Item, events: seq<Timed>)
    decreases |events|
  {
    events != [] ==>
      && (events[0].event == Revive ==> item.status != Dead)
      && (events[0].event == Publish && item.status != Dead ==> item.retries < o.maxAttempts)
      && WithinLimit(o, Evolve(o, item, events[0].event, events[0].now), events[1..])
  }

  /** Over every such run, late answers that bring a dead message back included, a message is
      published no more often than it has attempts left. */
  lemma {:induction false} PublishesAreBounded(o: Options, item: Item, events: seq<Timed>)
    requires ValidOptions(o) && LifeOk(o, item) && WithinLimit(o, item, events)
    ensures item.retries + Publishes(o, item, events) <= After(o, item, events).retries <= o.maxAttempts
    decreases |events|
  {
    if events != [] {
      EvolveKeepsLifeExactlyWhen(o, item, events[0].event, events[0].now);
      PublishesAreBounded(o, Evolve(o, item, events[0].event, events[0].now), events[1..]);
    }
  }

  /** The server rejects the message for good and then, late, asks for it again, n times. */
  function Rounds(n: nat, now: int): seq<Timed> {
    if n == 0 then [] else [Timed(Reject, now), Timed(Nack, now)] + Rounds(n - 1, now)
  }

  /** Only publishing is bounded: such rounds bring a dead message back, as often as they
      come and without using up an attempt, exactly as long as it has one left. */
  lemma {:induction false} RoundsGoOnExactlyWhen(o: Options, item: Item, n: nat, now: int)
    requires ValidOptions(o) && n >= 1
    ensures var after := After(o, item, Rounds(n, now));
            && after.retries == item.retries && Publishes(o, item, Rounds(n, now)) == 0
            && (after.status == Retry <==> item.retries < o.maxAttempts)
            && WithinLimit(o, item, Rounds(n, now))
    decreases n
  {
    var rest := Rounds(n - 1, now);
    assert Rounds(n, now)[1..] == [Timed(Nack, now)] + rest;
    assert ([Timed(Nack, now)] + rest)[1..] == rest;
    var next := Evolve(o, Evolve(o, item, Reject, now), Nack, now);
    assert After(o, item, Rounds(n, now)) == After(o, Evolve(o, item, Reject, now), [Timed(Nack, now)] + rest) == After(o, next, rest);
    assert Publishes(o, Evolve(o, item, Reject, now), [Timed(Nack, now)] + rest) == Publishes(o, next, rest);
    assert WithinLimit(o, Evolve(o, item, Reject, now), [Timed(Nack, now)] + rest) == WithinLimit(o, next, rest);
    if n > 1 {
      RoundsGoOnExactlyWhen(o, next, n - 1, now);
    }
  }

  /** No late answer brings a dead message back either. */
  predicate Unrevived(o: Options, item: Item, events: seq<Timed>)
    decreases |events|
  {
    events != [] ==>
      && (events[0].event == Nack && item.status == Dead ==> item.retries >= o.maxAttempts)
      && Unrevived(o, Evolve(o, item, events[0].event, events[0].now), events[1..])
  }

  function Progress(o: Options, item: Item, events: seq<Timed>): nat
    decreases |events|
  {
    if events == [] then 0
    else (if Progresses(o, item, events[0].event, events[0].now) then 1 else 0)
         + Progress(o, Evolve(o, item, events[0].event, events[0].now), events[1..])
  }

  /** So delivery ends: over every run without revivals, whatever else it repeats, the events that
      make progress use up the rank of the message, which for a new one is twice the number of
      attempts and one; and when it is used up the message is dead. */
  lemma {:induction false} DeliveryEnds(o: Options, item: Item, events: seq<Timed>)
    requires ValidOptions(o) && LifeOk(o, item) && WithinLimit(o, item, events) && Unrevived(o, item, events)
    ensures LifeOk(o, After(o, item, events))
    ensures Progress(o, item, events) + Rank(o, After(o, item, events)) <= Rank(o, item) <= 2 * o.maxAttempts + 1
    ensures Progress(o, item, events) >= Rank(o, item) ==> After(o, item, events).status == Dead
    decreases |events|
  {
    if events != [] {
      ProgressLowersRank(o, item, events[0].event, events[0].now);
      DeliveryEnds(o, Evolve(o, item, events[0].event, events[0].now), events[1..]);
    }
  }
}
