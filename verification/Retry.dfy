/** Retrying tool calls (`client.py`): the attempts of one POST loop, the backoff between them, and
    the one re-initialisation of an expired session. The server and the jitter are scripts. */
module Retry {
  import opened Wrappers

  datatype RetryConfig = RetryConfig(maxAttempts: int, baseDelay: real, jitter: bool, maxDelay: real)

  /** How a response, or the failure to get one, is classified. `hint` is the server's retry-after. */
  datatype Response = Success(value: string) | Transient(hint: real) | MissingSession | Permanent | RequestFailed

  datatype InitReply = Opened(session: Option<string>) | InitFailed

  datatype Post = Post(idempotencyKey: Option<string>, session: Option<string>)

  datatype Outcome = Returned(value: string) | Raised(response: Response) | InitRaised | NoAttempt

  // ---------------------------------------------------------------------------------------------
  // Backoff
  // ---------------------------------------------------------------------------------------------

  function Pow2(n: nat): (r: real)
    ensures r >= 1.0
  {
    if n == 0 then 1.0 else 2.0 * Pow2(n - 1)
  }

  function Min(a: real, b: real): real { if a < b then a else b }

  function Doubled(delay: real, n: nat): real { delay * Pow2(n) }

  function Jittered(jitter: bool, delay: real, spread: real): real {
    if jitter then delay * spread else delay
  }

  /** `spread` is the draw of the jitter. */
  function BackoffDelay(config: RetryConfig, attempt: nat, hint: real, spread: real): real {
    Jittered(config.jitter, if hint > 0.0 then hint else Min(Doubled(config.baseDelay, attempt), config.maxDelay), spread)
  }

  /** A positive hint of the server takes the place of the schedule, which starts at the base delay and
      doubles up to the cap; the jitter is a factor on either. */
  lemma BackoffIsHintOrDoubling(config: RetryConfig, attempt: nat, hint: real, spread: real)
    requires config.maxDelay >= 0.0
    ensures var plain := config.(jitter := false);
            && (hint > 0.0 ==> BackoffDelay(plain, attempt, hint, spread) == hint)
            && (hint <= 0.0 ==>
                  && BackoffDelay(plain, 0, hint, spread)
                     == (if config.baseDelay <= config.maxDelay then config.baseDelay else config.maxDelay)
                  && var twice := 2.0 * BackoffDelay(plain, attempt, hint, spread);
                     BackoffDelay(plain, attempt + 1, hint, spread) == if twice <= config.maxDelay then twice else config.maxDelay)
            && BackoffDelay(config, attempt, hint, spread)
               == BackoffDelay(plain, attempt, hint, spread) * (if config.jitter then spread else 1.0)
  {
    var p := Pow2(attempt);
    assert Pow2(attempt + 1) == 2.0 * p && Pow2(0) == 1.0;
    assert config.baseDelay * (2.0 * p) == 2.0 * (config.baseDelay * p);
    assert config.baseDelay * 1.0 == config.baseDelay;
  }

  function Sum(delays: seq<real>): real {
    if delays == [] then 0.0 else Sum(delays[..|delays| - 1]) + delays[|delays| - 1]
  }

  predicate UniformDraw(spread: real) { 0.8 <= spread <= 1.2 }

  function HintOf(response: Response): real {
    if response.Transient? then response.hint else 0.0
  }

  /** The first `m` delays of a loop whose replies start at number `start`. */
  function Delays(config: RetryConfig, server: nat -> Response, start: nat, spreads: nat -> real, firstDraw: nat, m: nat)
    : (r: seq<real>)
    ensures |r| == m
  {
    if m == 0 then []
    else Delays(config, server, start, spreads, firstDraw, m - 1)
         + [BackoffDelay(config, m - 1, HintOf(server(start + m - 1)), spreads(firstDraw + m - 1))]
  }

  lemma JitterBound(jitter: bool, delay: real, spread: real)
    requires delay >= 0.0 && 0.8 <= spread <= 1.2
    ensures Jittered(jitter, delay, spread) <= 1.2 * delay
  {
    assert delay * (1.2 - spread) >= 0.0;
    assert delay * (1.2 - spread) == delay * 1.2 - delay * spread;
  }

  /** The sums of the uncapped schedule, and of the cap. */
  function DoublingTotal(delay: real, m: nat): real { delay * (Pow2(m) - 1.0) }
  function CapTotal(cap: real, m: nat): real { m as real * cap }

  lemma TotalsGrow(delay: real, cap: real, m: nat)
    requires delay >= 0.0
    ensures DoublingTotal(delay, m + 1) == DoublingTotal(delay, m) + Doubled(delay, m) && DoublingTotal(delay, 0) == 0.0
    ensures CapTotal(cap, m + 1) == CapTotal(cap, m) + cap && CapTotal(cap, 0) == 0.0
    ensures Doubled(delay, m) >= 0.0
  {
    var p := Pow2(m);
    assert Pow2(m + 1) == 2.0 * p && Pow2(0) == 1.0;
    assert delay * (2.0 * p - 1.0) == delay * (p - 1.0) + delay * p;
    assert (m + 1) as real == m as real + 1.0;
    assert (m as real + 1.0) * cap == m as real * cap + cap;
    assert delay * p >= 0.0;
  }

  lemma DelayBound(config: RetryConfig, a: nat, hint: real, spread: real)
    requires UniformDraw(spread) && hint <= 0.0 && config.baseDelay >= 0.0 && config.maxDelay >= 0.0
    ensures BackoffDelay(config, a, hint, spread) <= 1.2 * Doubled(config.baseDelay, a)
    ensures BackoffDelay(config, a, hint, spread) <= 1.2 * config.maxDelay
  {
    TotalsGrow(config.baseDelay, config.maxDelay, a);
    hide Jittered, Doubled, DoublingTotal, CapTotal;
    JitterBound(config.jitter, Min(Doubled(config.baseDelay, a), config.maxDelay), spread);
  }

  lemma SumSnoc(delays: seq<real>, last: real)
    ensures Sum(delays + [last]) == Sum(delays) + last
  {
    assert (delays + [last])[..|delays|] == delays;
  }

  /** Without hints, `m` sleeps take at most 1.2 times the doubling schedule base * (2^m - 1), and at
      most 1.2 times the cap each. */
  lemma {:induction false} SleepBound(config: RetryConfig, server: nat -> Response, start: nat, spreads: nat -> real,
                                      firstDraw: nat, m: nat)
    requires config.baseDelay >= 0.0 && config.maxDelay >= 0.0
    requires forall a :: start <= a < start + m ==> HintOf(server(a)) <= 0.0
    requires forall a :: firstDraw <= a < firstDraw + m ==> UniformDraw(spreads(a))
    ensures Sum(Delays(config, server, start, spreads, firstDraw, m)) <= 1.2 * DoublingTotal(config.baseDelay, m)
    ensures Sum(Delays(config, server, start, spreads, firstDraw, m)) <= 1.2 * CapTotal(config.maxDelay, m)
  {
    if m == 0 {
      TotalsGrow(config.baseDelay, config.maxDelay, 0);
    } else {
      var a := m - 1;
      SleepBound(config, server, start, spreads, firstDraw, a);
      LastDelay(config, server, start, spreads, firstDraw, a);
      DelayBound(config, a, HintOf(server(start + a)), spreads(firstDraw + a));
      TotalsGrow(config.baseDelay, config.maxDelay, a);
      hide Delays, Sum, BackoffDelay, Doubled, DoublingTotal, CapTotal;
    }
  }

  lemma LastDelay(config: RetryConfig, server: nat -> Response, start: nat, spreads: nat -> real, firstDraw: nat, a: nat)
    ensures Sum(Delays(config, server, start, spreads, firstDraw, a + 1))
            == Sum(Delays(config, server, start, spreads, firstDraw, a))
               + BackoffDelay(config, a, HintOf(server(start + a)), spreads(firstDraw + a))
  {
    SumSnoc(Delays(config, server, start, spreads, firstDraw, a),
            BackoffDelay(config, a, HintOf(server(start + a)), spreads(firstDraw + a)));
  }

  lemma {:induction false} SumAppend(a: seq<real>, b: seq<real>)
    ensures Sum(a + b) == Sum(a) + Sum(b)
  {
    if b == [] {
      assert a + b == a;
    } else {
      var rest, last := b[..|b| - 1], b[|b| - 1];
      assert a + b == (a + rest) + [last] && b == rest + [last];
      SumAppend(a, rest);
      SumSnoc(a + rest, last);
      SumSnoc(rest, last);
    }
  }

  /** The sleeps of a loop of `n` attempts. */
  function Pauses(n: nat): nat { if n == 0 then 0 else n - 1 }

  lemma {:induction false} TotalsMonotone(delay: real, cap: real, m: nat, n: nat)
    requires delay >= 0.0 && cap >= 0.0 && m <= n
    ensures DoublingTotal(delay, m) <= DoublingTotal(delay, n) && CapTotal(cap, m) <= CapTotal(cap, n)
    decreases n
  {
    hide Doubled, DoublingTotal, CapTotal;
    if m < n {
      TotalsMonotone(delay, cap, m, n - 1);
      TotalsGrow(delay, cap, n - 1);
    }
  }

  /** What one exhausted loop may sleep: by the doubling schedule, and by the cap. */
  function ScheduleBound(config: RetryConfig): real {
    1.2 * DoublingTotal(config.baseDelay, Pauses(AtLeastZero(config.maxAttempts)))
  }
  function CapBound(config: RetryConfig): real {
    1.2 * CapTotal(config.maxDelay, Pauses(AtLeastZero(config.maxAttempts)))
  }

  lemma LoopSleepBound(config: RetryConfig, server: nat -> Response, start: nat, spreads: nat -> real, firstDraw: nat, n: nat)
    requires config.baseDelay >= 0.0 && config.maxDelay >= 0.0 && n <= AtLeastZero(config.maxAttempts)
    requires forall a :: start <= a < start + n ==> HintOf(server(a)) <= 0.0
    requires forall a :: firstDraw <= a < firstDraw + n ==> UniformDraw(spreads(a))
    ensures var sum := Sum(Delays(config, server, start, spreads, firstDraw, Pauses(n)));
            sum <= ScheduleBound(config) && sum <= CapBound(config)
  {
    SleepBound(config, server, start, spreads, firstDraw, Pauses(n));
    TotalsMonotone(config.baseDelay, config.maxDelay, Pauses(n), Pauses(AtLeastZero(config.maxAttempts)));
    hide Delays, Sum, DoublingTotal, CapTotal;
  }

  /** Without hints, a whole tool call, the renewal of an expired session included, sleeps at most
      twice what one exhausted loop sleeps. */
  lemma CallSleepBound(config: RetryConfig, server: nat -> Response, start: nat, spreads: nat -> real, firstDraw: nat,
                       first: nat, second: nat)
    requires config.baseDelay >= 0.0 && config.maxDelay >= 0.0
    requires first <= AtLeastZero(config.maxAttempts) && second <= AtLeastZero(config.maxAttempts)
    requires forall a :: start <= a < start + first + second ==> HintOf(server(a)) <= 0.0
    requires forall a :: firstDraw <= a < firstDraw + first + second ==> UniformDraw(spreads(a))
    ensures var sum := Sum(CallDelays(config, server, start, spreads, firstDraw, first, second));
            sum <= 2.0 * ScheduleBound(config) && sum <= 2.0 * CapBound(config)
  {
    hide ScheduleBound, CapBound;
    LoopSleepBound(config, server, start, spreads, firstDraw, first);
    LoopSleepBound(config, server, start + first, spreads, firstDraw + Pauses(first), second);
    SumAppend(Delays(config, server, start, spreads, firstDraw, Pauses(first)),
              Delays(config, server, start + first, spreads, firstDraw + Pauses(first), Pauses(second)));
  }

  /** The sleeps of a tool call whose two loops make `first` and `second` attempts. */
  function CallDelays(config: RetryConfig, server: nat -> Response, start: nat, spreads: nat -> real, firstDraw: nat,
                      first: nat, second: nat): seq<real>
  {
    Delays(config, server, start, spreads, firstDraw, Pauses(first))
    + Delays(config, server, start + first, spreads, firstDraw + Pauses(first), Pauses(second))
  }

  lemma CallDelaysParts(config: RetryConfig, server: nat -> Response, start: nat, spreads: nat -> real, firstDraw: nat,
                        first: nat, second: nat)
    ensures CallDelays(config, server, start, spreads, firstDraw, 0, 0) == []
    ensures CallDelays(config, server, start, spreads, firstDraw, first, 0)
            == Delays(config, server, start, spreads, firstDraw, Pauses(first))
    ensures CallDelays(config, server, start, spreads, firstDraw, first, second)
            == Delays(config, server, start, spreads, firstDraw, Pauses(first))
               + Delays(config, server, start + first, spreads, firstDraw + Pauses(first), Pauses(second))
  {
  }

  // ---------------------------------------------------------------------------------------------
  // The loop
  // ---------------------------------------------------------------------------------------------

  /** How many attempts the replies from number `start` on lead to. */
  function Tries(server: nat -> Response, start: nat, maxAttempts: nat): nat
    decreases maxAttempts
  {
    if maxAttempts == 0 then 0
    else if server(start).Transient? && maxAttempts > 1 then 1 + Tries(server, start + 1, maxAttempts - 1)
    else 1
  }

  /** The attempts are those up to the first reply that is not transient, but no more than allowed. */
  lemma {:induction false} TriesAreUpToFirstFinal(server: nat -> Response, start: nat, maxAttempts: nat)
    ensures var n := Tries(server, start, maxAttempts);
            && n <= maxAttempts && (maxAttempts >= 1 ==> n >= 1)
            && (forall i :: start <= i < start + n - 1 ==> server(i).Transient?)
            && (n >= 1 && n < maxAttempts ==> !server(start + n - 1).Transient?)
    decreases maxAttempts
  {
    if maxAttempts > 1 { TriesAreUpToFirstFinal(server, start + 1, maxAttempts - 1); }
  }

  function OutcomeOf(response: Response): Outcome {
    match response case Success(v) => Returned(v) case _ => Raised(response)
  }

  function Copies(post: Post, n: nat): seq<Post> {
    if n == 0 then [] else Copies(post, n - 1) + [post]
  }

  function AtLeastZero(n: int): nat { if n < 0 then 0 else n }

  lemma NothingSent()
    ensures forall post :: Copies(post, 0) == []
  {
  }

  lemma TriesStep(server: nat -> Response, start: nat, maxAttempts: nat)
    ensures maxAttempts == 0 ==> Tries(server, start, maxAttempts) == 0
    ensures maxAttempts > 0 ==>
              Tries(server, start, maxAttempts)
              == (if server(start).Transient? && maxAttempts > 1 then 1 + Tries(server, start + 1, maxAttempts - 1) else 1)
  {
  }

  lemma NothingYet(config: RetryConfig, server: nat -> Response, start: nat, spreads: nat -> real, firstDraw: nat, post: Post)
    ensures Copies(post, 0) == [] && Delays(config, server, start, spreads, firstDraw, 0) == []
  {
  }

  lemma OneMore(config: RetryConfig, server: nat -> Response, start: nat, spreads: nat -> real, firstDraw: nat, post: Post, n: nat)
    ensures Copies(post, n + 1) == Copies(post, n) + [post]
    ensures Delays(config, server, start, spreads, firstDraw, n + 1)
            == Delays(config, server, start, spreads, firstDraw, n)
               + [BackoffDelay(config, n, HintOf(server(start + n)), spreads(firstDraw + n))]
  {
  }

  class Client {
    const config: RetryConfig
    const server: nat -> Response
    const initServer: nat -> InitReply
    const spreads: nat -> real
    var initialized: bool
    var session: Option<string>
    var posts: seq<Post>
    var sleeps: seq<real>
    var inits: nat

    constructor (config: RetryConfig, server: nat -> Response, initServer: nat -> InitReply, spreads: nat -> real)
      ensures this.config == config && this.server == server && this.initServer == initServer && this.spreads == spreads
      ensures !initialized && posts == [] && sleeps == [] && inits == 0
    {
      this.config, this.server, this.initServer, this.spreads := config, server, initServer, spreads;
      initialized, session, posts, sleeps, inits := false, None, [], [], 0;
    }

    /** `_post_tool`: sleeps once between any two attempts and never otherwise. */
    method PostTool(key: Option<string>) returns (outcome: Outcome, ghost n: nat)
      modifies this`posts, this`sleeps
      ensures n == Tries(server, |old(posts)|, AtLeastZero(config.maxAttempts))
      ensures posts == old(posts) + Copies(Post(key, session), n)
      ensures outcome == if n == 0 then NoAttempt else OutcomeOf(server(|old(posts)| + n - 1))
      ensures sleeps == old(sleeps) + Delays(config, server, |old(posts)|, spreads, |old(sleeps)|, Pauses(n))
    {
      hide Tries, BackoffDelay, Delays, Copies, OutcomeOf;
      ghost var sent, slept := |posts|, |sleeps|;
      NothingYet(config, server, sent, spreads, slept, Post(key, session));
      TriesStep(server, sent, AtLeastZero(config.maxAttempts));
      var attempt := 0;
      n := 0;
      while attempt < config.maxAttempts
        invariant 0 <= attempt == n <= AtLeastZero(config.maxAttempts) && |posts| == sent + n && |sleeps| == slept + n
        invariant posts == old(posts) + Copies(Post(key, session), n)
        invariant Tries(server, sent, AtLeastZero(config.maxAttempts))
                  == n + Tries(server, sent + n, AtLeastZero(config.maxAttempts) - n)
        invariant n > 0 ==> n < config.maxAttempts
        invariant sleeps == old(sleeps) + Delays(config, server, sent, spreads, slept, n)
      {
        OneMore(config, server, sent, spreads, slept, Post(key, session), n);
        TriesStep(server, sent + n, AtLeastZero(config.maxAttempts) - n);
        var reply := server(|posts|);
        posts := posts + [Post(key, session)];
        n := n + 1;
        if reply.Success? { return OutcomeOf(reply), n; }
        if !reply.Transient? || attempt == config.maxAttempts - 1 { return OutcomeOf(reply), n; }
        sleeps := sleeps + [BackoffDelay(config, attempt, reply.hint, spreads(|sleeps|))];
        attempt := attempt + 1;
      }
      outcome := NoAttempt;
    }

    method Initialize() returns (ok: bool)
      modifies this`session, this`inits
      ensures inits == old(inits) + 1 && ok == initServer(old(inits)).Opened?
      ensures session == if ok then initServer(old(inits)).session else old(session)
    {
      var reply := initServer(inits);
      inits := inits + 1;
      ok := reply.Opened?;
      if ok { session := reply.session; }
    }

    /** A call in an open session: one loop of attempts and, when the session turns out to have expired
        and can be renewed, another. */
    method CallInSession(key: Option<string>) returns (outcome: Outcome, ghost first: nat, ghost second: nat)
      modifies this`session, this`inits, this`posts, this`sleeps
      ensures first == Tries(server, |old(posts)|, AtLeastZero(config.maxAttempts))
      ensures var expired := Expired(server, |old(posts)|, first);
              var renewed := expired && initServer(old(inits)).Opened?;
              && second == (if renewed then Tries(server, |old(posts)| + first, AtLeastZero(config.maxAttempts)) else 0)
              && inits == old(inits) + (if expired then 1 else 0)
              && session == (if renewed then initServer(old(inits)).session else old(session))
              && outcome == (if expired && !renewed then InitRaised else OutcomeAfter(server, |old(posts)|, first + second))
      ensures posts == old(posts) + Copies(Post(key, old(session)), first) + Copies(Post(key, session), second)
      ensures sleeps == old(sleeps) + CallDelays(config, server, |old(posts)|, spreads, |old(sleeps)|, first, second)
    {
      hide Tries, Delays, Copies, CallDelays, OutcomeOf, Pauses, AtLeastZero, Sum, BackoffDelay;
      second := 0;
      NothingSent();
      ghost var sent, slept := |posts|, |sleeps|;
      outcome, first := PostTool(key);
      CopiesLength(Post(key, session), first);
      CallDelaysParts(config, server, sent, spreads, slept, first, 0);
      OnlyExpiryIsMissing(server, sent, first);
      if outcome == Raised(MissingSession) {
        var ok := Initialize();
        if !ok { return InitRaised, first, 0; }
        TriesAreUpToFirstFinal(server, sent, AtLeastZero(config.maxAttempts));
        TriesAreUpToFirstFinal(server, sent + first, AtLeastZero(config.maxAttempts));
        outcome, second := PostTool(key);
        CallDelaysParts(config, server, sent, spreads, slept, first, second);
      }
    }

    /** `_mcp_http_tool`: opens the session on the first call. Every POST of the call carries the same
        idempotency key; there are at most `maxAttempts` of them, or twice as many when the session had
        expired and could be renewed. */
    method McpHttpTool(key: Option<string>) returns (outcome: Outcome, ghost first: nat, ghost second: nat)
      modifies this
      ensures var ready := old(initialized) || initServer(old(inits)).Opened?;
              var asked := old(inits) + if old(initialized) then 0 else 1;
              var expired := Expired(server, |old(posts)|, first);
              var renewed := expired && initServer(asked).Opened?;
              && initialized == ready && inits == asked + (if expired then 1 else 0)
              && first == (if ready then Tries(server, |old(posts)|, AtLeastZero(config.maxAttempts)) else 0)
              && second == (if renewed then Tries(server, |old(posts)| + first, AtLeastZero(config.maxAttempts)) else 0)
              && outcome == (if !ready || (expired && !renewed) then InitRaised
                             else OutcomeAfter(server, |old(posts)|, first + second))
              && session == (if renewed then initServer(asked).session
                             else if old(initialized) || !ready then old(session) else initServer(old(inits)).session)
      ensures var before := if old(initialized) then old(session) else SessionOf(initServer(old(inits)));
              posts == old(posts) + Copies(Post(key, before), first) + Copies(Post(key, session), second)
      ensures sleeps == old(sleeps) + CallDelays(config, server, |old(posts)|, spreads, |old(sleeps)|, first, second)
      ensures first <= AtLeastZero(config.maxAttempts) && second <= AtLeastZero(config.maxAttempts)
      ensures outcome == Raised(MissingSession) ==> second > 0
      ensures outcome.Returned? ==> posts != [] && server(|posts| - 1) == Success(outcome.value)
    {
      hide Tries, Delays, Copies, CallDelays, Pauses, AtLeastZero, OutcomeAfter, Expired;
      ghost var sent := |posts|;
      NothingSent();
      CallDelaysParts(config, server, sent, spreads, |sleeps|, 0, 0);
      OnlyExpiryIsMissing(server, sent, 0);
      if !initialized {
        var ok := Initialize();
        if !ok { return InitRaised, 0, 0; }
        initialized := true;
      }
      ghost var before := session;
      outcome, first, second := CallInSession(key);
      TriesWithin(server, sent, first, AtLeastZero(config.maxAttempts));
      OnlyExpiryIsMissing(server, sent, first);
      ReturnedIsLast(server, sent, first + second);
      CopiesLength(Post(key, before), first);
      CopiesLength(Post(key, session), second);
    }
  }

  lemma TriesWithin(server: nat -> Response, start: nat, first: nat, maxAttempts: nat)
    ensures Tries(server, start, maxAttempts) <= maxAttempts && Tries(server, start + first, maxAttempts) <= maxAttempts
    ensures Tries(server, start, maxAttempts) > 0 ==> Tries(server, start + first, maxAttempts) > 0
  {
    TriesAreUpToFirstFinal(server, start, maxAttempts);
    TriesAreUpToFirstFinal(server, start + first, maxAttempts);
  }

  lemma ReturnedIsLast(server: nat -> Response, start: nat, n: nat)
    ensures OutcomeAfter(server, start, n).Returned? ==>
              n > 0 && server(start + n - 1) == Success(OutcomeAfter(server, start, n).value)
  {
  }

  /** The last of `n` replies says that the session is gone. */
  predicate Expired(server: nat -> Response, start: nat, n: nat) {
    n > 0 && server(start + n - 1) == MissingSession
  }

  /** What `n` attempts come to. */
  function OutcomeAfter(server: nat -> Response, start: nat, n: nat): Outcome {
    if n == 0 then NoAttempt else OutcomeOf(server(start + n - 1))
  }

  lemma OnlyExpiryIsMissing(server: nat -> Response, start: nat, n: nat)
    ensures OutcomeAfter(server, start, n) == Raised(MissingSession) <==> Expired(server, start, n)
    ensures Expired(server, start, n) ==> n > 0
  {
  }

  function SessionOf(reply: InitReply): Option<string> {
    if reply.Opened? then reply.session else None
  }

  lemma {:induction false} CopiesLength(post: Post, n: nat)
    ensures |Copies(post, n)| == n && forall i :: 0 <= i < n ==> Copies(post, n)[i] == post
  {
    if n > 0 { CopiesLength(post, n - 1); }
  }
}
