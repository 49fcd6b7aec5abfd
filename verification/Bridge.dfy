/** The resilience parts of the example bridge: the circuit breaker and the bounded write queue.
    Calls run concurrently; the steps of a call are its admission and its settlement, and an
    interleaving is any sequence of such steps. */
module Bridge {
  import opened Wrappers

  // ---------------------------------------------------------------------------------------------
  // Circuit breaker
  // ---------------------------------------------------------------------------------------------

  datatype Phase = Closed | Open | HalfOpen

  datatype Breaker = Breaker(phase: Phase, failures: nat, openedAt: int)

  const FRESH := Breaker(Closed, 0, 0)

  datatype Event = Begin(now: int) | Succeed | Fail(now: int)

  class CircuitBreaker {
    const threshold: int
    const recovery: int
    var phase: Phase
    var failures: nat
    var openedAt: int

    constructor (threshold: int, recovery: int)
      ensures this.threshold == threshold && this.recovery == recovery && State() == FRESH
    {
      this.threshold, this.recovery := threshold, recovery;
      phase, failures, openedAt := Closed, 0, 0;
    }

    function State(): Breaker
      reads this
    {
      Breaker(phase, failures, openedAt)
    }

    /** The first critical section of `call`. */
    method BeginCall(now: int) returns (admitted: bool)
      modifies this
      ensures State() == Stepped(old(State()), Begin(now), threshold, recovery)
      ensures admitted <==> Admits(old(State()), now, recovery)
    {
      if phase == Open {
        if now - openedAt >= recovery {
          phase := HalfOpen;
        } else {
          return false;
        }
      }
      admitted := true;
    }

    /** The critical section after the awaited call returned, or raised. */
    method SettleCall(ok: bool, now: int)
      modifies this
      ensures State() == Stepped(old(State()), if ok then Succeed else Fail(now), threshold, recovery)
    {
      if ok {
        failures := 0;
        phase := Closed;
      } else {
        failures := failures + 1;
        if failures >= threshold || phase == HalfOpen {
          phase := Open;
          openedAt := now;
        }
      }
    }
  }

  predicate Admits(s: Breaker, now: int, recovery: int) {
    s.phase == Open ==> now - s.openedAt >= recovery
  }

  function Stepped(s: Breaker, event: Event, threshold: int, recovery: int): Breaker {
    match event
    case Begin(now) => if s.phase == Open && now - s.openedAt >= recovery then s.(phase := HalfOpen) else s
    case Succeed => Breaker(Closed, 0, s.openedAt)
    case Fail(now) =>
      if s.failures + 1 >= threshold || s.phase == HalfOpen then Breaker(Open, s.failures + 1, now)
      else s.(failures := s.failures + 1)
  }

  function Run(events: seq<Event>, threshold: int, recovery: int): Breaker {
    if events == [] then FRESH
    else Stepped(Run(events[..|events| - 1], threshold, recovery), events[|events| - 1], threshold, recovery)
  }

  /** The failures settled since the last settled success. */
  function TrailingFailures(events: seq<Event>): nat {
    if events == [] || events[|events| - 1] == Succeed then 0
    else TrailingFailures(events[..|events| - 1]) + (if events[|events| - 1].Fail? then 1 else 0)
  }

  function AtLeastOne(threshold: int): int { if threshold < 1 then 1 else threshold }

  /** Under any interleaving the breaker is closed exactly when fewer failures than the threshold have
      settled since the last success. */
  lemma {:induction false} ClosedIff(events: seq<Event>, threshold: int, recovery: int)
    ensures var s := Run(events, threshold, recovery);
            s.failures == TrailingFailures(events) && (s.phase == Closed <==> TrailingFailures(events) < AtLeastOne(threshold))
  {
    if events != [] { ClosedIff(events[..|events| - 1], threshold, recovery); }
  }

  /** So the second reason to open on a failure, being half open, never decides. */
  lemma HalfOpenDisjunctRedundant(events: seq<Event>, now: int, threshold: int, recovery: int)
    ensures var s := Run(events, threshold, recovery);
            && (s.failures + 1 >= threshold || s.phase == HalfOpen <==> s.failures + 1 >= threshold)
            && (Stepped(s, Fail(now), threshold, recovery).phase == Open <==> TrailingFailures(events) + 1 >= threshold)
  {
    ClosedIff(events, threshold, recovery);
  }

  /** The time of the last settled failure, if it comes after the last success. */
  function LastFailure(events: seq<Event>): Option<int> {
    if events == [] then None
    else match events[|events| - 1]
      case Succeed => None
      case Fail(now) => Some(now)
      case Begin(_) => LastFailure(events[..|events| - 1])
  }

  /** The probing phase began: some call was admitted since the last failure. */
  predicate Probing(events: seq<Event>, threshold: int, recovery: int) {
    if events == [] then false
    else match events[|events| - 1]
      case Succeed => false
      case Fail(_) => false
      case Begin(now) =>
        var before := events[..|events| - 1];
        Probing(before, threshold, recovery)
        || (TrailingFailures(before) >= AtLeastOne(threshold) && LastFailure(before).Some?
            && now - LastFailure(before).value >= recovery)
  }

  /** A call is rejected exactly when the threshold is reached, the last failure is less than the
      recovery time ago and no call was admitted since. */
  lemma {:induction false} RejectedIff(events: seq<Event>, now: int, threshold: int, recovery: int)
    ensures Admits(Run(events, threshold, recovery), now, recovery) <==>
              !(TrailingFailures(events) >= AtLeastOne(threshold) && !Probing(events, threshold, recovery)
                && LastFailure(events).Some? && now - LastFailure(events).value < recovery)
  {
    OpenedAtLastFailure(events, threshold, recovery);
    ClosedIff(events, threshold, recovery);
  }

  lemma {:induction false} OpenedAtLastFailure(events: seq<Event>, threshold: int, recovery: int)
    ensures TrailingFailures(events) > 0 <==> LastFailure(events).Some?
    ensures TrailingFailures(events) >= AtLeastOne(threshold) ==>
              Run(events, threshold, recovery).openedAt == LastFailure(events).value
    ensures Run(events, threshold, recovery).phase == HalfOpen <==> Probing(events, threshold, recovery)
  {
    if events != [] {
      var before := events[..|events| - 1];
      OpenedAtLastFailure(before, threshold, recovery);
      ClosedIff(before, threshold, recovery);
      ClosedIff(events, threshold, recovery);
    }
  }

  /** The half-open phase is documented to let one request through; it lets any number through, until
      one of them settles. */
  lemma {:induction false} HalfOpenAdmitsAll(events: seq<Event>, begins: seq<int>, now: int, threshold: int, recovery: int)
    requires Run(events, threshold, recovery).phase == HalfOpen
    ensures var later := events + seq(|begins|, i requires 0 <= i < |begins| => Begin(begins[i]));
            Run(later, threshold, recovery).phase == HalfOpen && Admits(Run(later, threshold, recovery), now, recovery)
    decreases |begins|
  {
    var starts := seq(|begins|, i requires 0 <= i < |begins| => Begin(begins[i]));
    if begins == [] {
      assert events + starts == events;
    } else {
      var fewer := begins[..|begins| - 1];
      HalfOpenAdmitsAll(events, fewer, now, threshold, recovery);
      assert (events + starts)[..|events + starts| - 1] == events + seq(|fewer|, i requires 0 <= i < |fewer| => Begin(fewer[i]));
    }
  }

  // ---------------------------------------------------------------------------------------------
  // Bounded write queue
  // ---------------------------------------------------------------------------------------------

  datatype WriteEvent<T> = Offer(item: T) | Take | Finish | Stop

  /** `inFlight` is the item the drain task works on; `cut` what it worked on when it was cancelled. */
  datatype WriteQueue<T> = WriteQueue(queued: seq<T>, inFlight: seq<T>, handled: seq<T>, cut: seq<T>, dropped: nat, stopped: bool)

  /** `asyncio.Queue`: a size of zero or less means no bound. */
  predicate Full(queued: nat, maxsize: int) {
    maxsize > 0 && queued >= maxsize
  }

  function StepQueue<T>(q: WriteQueue<T>, event: WriteEvent<T>, maxsize: int): WriteQueue<T> {
    match event
    case Offer(item) => if Full(|q.queued|, maxsize) then q.(dropped := q.dropped + 1) else q.(queued := q.queued + [item])
    case Take => if q.stopped || q.inFlight != [] || q.queued == [] then q
                 else q.(inFlight := [q.queued[0]], queued := q.queued[1..])
    case Finish => q.(handled := q.handled + q.inFlight, inFlight := [])
    case Stop => q.(cut := q.cut + q.inFlight, inFlight := [], stopped := true)
  }

  class BoundedWriteQueue<T> {
    const maxsize: int
    var queued: seq<T>
    var inFlight: seq<T>
    var handled: seq<T>
    var cut: seq<T>
    var dropped: nat
    var stopped: bool

    constructor (maxsize: int)
      ensures this.maxsize == maxsize && State() == WriteQueue([], [], [], [], 0, false)
    {
      this.maxsize := maxsize;
      queued, inFlight, handled, cut, dropped, stopped := [], [], [], [], 0, false;
    }

    function State(): WriteQueue<T>
      reads this
    {
      WriteQueue(queued, inFlight, handled, cut, dropped, stopped)
    }

    method Enqueue(item: T)
      modifies this
      ensures State() == StepQueue(old(State()), Offer(item), maxsize)
    {
      if maxsize > 0 && |queued| >= maxsize {
        dropped := dropped + 1;
      } else {
        queued := queued + [item];
      }
    }

    /** The drain task gets the next item. */
    method TakeNext()
      modifies this
      ensures State() == StepQueue(old(State()), Take, maxsize)
    {
      if !stopped && inFlight == [] && queued != [] {
        inFlight, queued := [queued[0]], queued[1..];
      }
    }

    /** The worker returned or raised; either way the item is done with. */
    method FinishItem()
      modifies this
      ensures State() == StepQueue(old(State()), Finish, maxsize)
    {
      handled, inFlight := handled + inFlight, [];
    }

    /** The drain task is cancelled. */
    method StopDraining()
      modifies this
      ensures State() == StepQueue(old(State()), Stop, maxsize)
    {
      cut, inFlight, stopped := cut + inFlight, [], true;
    }
  }

  function RunQueue<T>(events: seq<WriteEvent<T>>, maxsize: int): WriteQueue<T> {
    if events == [] then WriteQueue([], [], [], [], 0, false)
    else StepQueue(RunQueue(events[..|events| - 1], maxsize), events[|events| - 1], maxsize)
  }

  function Offered<T>(events: seq<WriteEvent<T>>): seq<T> {
    if events == [] then []
    else Offered(events[..|events| - 1]) + (if events[|events| - 1].Offer? then [events[|events| - 1].item] else [])
  }

  /** The offered items that found room. */
  function Accepted<T>(events: seq<WriteEvent<T>>, maxsize: int): seq<T> {
    if events == [] then []
    else
      var before, last := events[..|events| - 1], events[|events| - 1];
      Accepted(before, maxsize)
      + (if last.Offer? && !Full(|RunQueue(before, maxsize).queued|, maxsize) then [last.item] else [])
  }

  ghost predicate Conserved<T(!new)>(q: WriteQueue<T>, accepted: seq<T>, offered: seq<T>, maxsize: int) {
    && q.handled + q.cut + q.inFlight + q.queued == accepted
    && |accepted| + q.dropped == |offered|
    && (maxsize > 0 ==> |q.queued| <= maxsize)
    && |q.inFlight| <= 1 && |q.cut| <= 1 && (q.stopped ==> q.inFlight == []) && (!q.stopped ==> q.cut == [])
  }

  lemma StepConserves<T(!new)>(q: WriteQueue<T>, accepted: seq<T>, offered: seq<T>, event: WriteEvent<T>, maxsize: int)
    requires Conserved(q, accepted, offered, maxsize)
    ensures Conserved(StepQueue(q, event, maxsize),
                      accepted + (if event.Offer? && !Full(|q.queued|, maxsize) then [event.item] else []),
                      offered + (if event.Offer? then [event.item] else []), maxsize)
  {
    if event.Take? && q.queued != [] { assert q.queued == [q.queued[0]] + q.queued[1..]; }
  }

  /** No accepted write is lost, repeated or reordered: what was handled, cut off, is being handled and
      is queued adds up to what was accepted, in order; and what was not accepted was counted as dropped. */
  lemma {:induction false} WritesAreConserved<T(!new)>(events: seq<WriteEvent<T>>, maxsize: int)
    ensures Conserved(RunQueue(events, maxsize), Accepted(events, maxsize), Offered(events), maxsize)
  {
    if events != [] {
      WritesAreConserved(events[..|events| - 1], maxsize);
      StepConserves(RunQueue(events[..|events| - 1], maxsize), Accepted(events[..|events| - 1], maxsize),
                    Offered(events[..|events| - 1]), events[|events| - 1], maxsize);
    }
  }

  /** Stopping is documented to drain the queue; everything accepted was handled exactly when nothing
      was queued or in flight at that moment. */
  lemma StopDrainsIff<T(!new)>(events: seq<WriteEvent<T>>, maxsize: int)
    requires !RunQueue(events, maxsize).stopped
    ensures RunQueue(events + [Stop], maxsize).handled == Accepted(events, maxsize)
            <==> RunQueue(events, maxsize).queued == [] && RunQueue(events, maxsize).inFlight == []
  {
    WritesAreConserved(events, maxsize);
    assert (events + [Stop])[..|events|] == events;
    var q := RunQueue(events, maxsize);
    assert |q.handled + q.cut + q.inFlight + q.queued| == |q.handled| + |q.inFlight| + |q.queued|;
  }
}
