/**
 * `fetch` that waits out a server's rate limit within a time budget. Times are
 * milliseconds; the only time that passes is time spent waiting.
 */
module RateLimit {
  import opened Outcomes

  const TOTAL_BUDGET: real := 120000.0
  const MAX_WAIT: real := 5000.0
  const BASE_BACKOFF: real := 250.0

  /** A status, and what `Retry-After` was parsed to, if the header was there. */
  datatype Response = Response(status: int, asked: Option<int>)

  /** The server's answer to a request, by how many went before it and how long was waited so far. */
  type Server = (nat, real) -> Response

  /** The random part of each backoff. */
  type Jitter = nat -> real

  predicate IsRateLimited(status: int) {
    status == 429 || status == 503
  }

  function Min(a: real, b: real): real {
    if a <= b then a else b
  }

  function Doubled(n: nat): real {
    if n == 0 then 1.0 else 2.0 * Doubled(n - 1)
  }

  /** How many waits are behind us, how much they came to, and the answer once there is one. */
  datatype State = State(attempt: nat, waited: real, answer: Option<Response>)

  /** How long to wait after `r`; `None` when the server asks for longer than is left. */
  function WaitAfter(r: Response, attempt: nat, remaining: real, jitter: real): Option<real> {
    if r.asked.Some? then
      var asked := r.asked.value as real;
      if asked > remaining then None else Some(Min(Min(asked, MAX_WAIT), remaining))
    else Some(Min(Min(BASE_BACKOFF * Doubled(attempt) + jitter, MAX_WAIT), remaining))
  }

  /** One request, and the wait that follows it if one does. */
  function Round(server: Server, jitter: Jitter, st: State): State {
    if st.answer.Some? then st
    else
      var r := server(st.attempt, st.waited);
      var remaining := TOTAL_BUDGET - st.waited;
      if !IsRateLimited(r.status) || remaining <= 0.0 then st.(answer := Some(r))
      else
        var wait := WaitAfter(r, st.attempt, remaining, jitter(st.attempt));
        if wait.None? then st.(answer := Some(r)) else State(st.attempt + 1, st.waited + wait.value, None)
  }

  function Rounds(server: Server, jitter: Jitter, n: nat): State {
    if n == 0 then State(0, 0.0, None) else Round(server, jitter, Rounds(server, jitter, n - 1))
  }

  ghost predicate IsJitter(jitter: Jitter) {
    forall i: nat :: 0.0 <= jitter(i) < 250.0
  }

  /** Some round brings the answer. */
  ghost predicate Ends(server: Server, jitter: Jitter) {
    exists n: nat :: Rounds(server, jitter, n).answer.Some?
  }

  /** Every ask is for a positive time. */
  ghost predicate AsksForTime(server: Server) {
    forall i: nat, t: real :: server(i, t).asked.Some? ==> server(i, t).asked.value > 0
  }

  // ----- the loop as it is written -----

  /** A loop without an end has no result to speak of; when there is one is `GivesUpExactly`. */
  method FetchWithRateLimitRetry(server: Server, jitter: Jitter)
      returns (response: Response, requests: nat, waited: real)
    requires Ends(server, jitter)
    ensures requests > 0 && Rounds(server, jitter, requests) == State(requests - 1, waited, Some(response))
  {
    waited := 0.0;
    var attempt: nat := 0;
    ghost var end: nat :| Rounds(server, jitter, end).answer.Some?;
    hide Doubled, Ends;
    while true
      invariant Rounds(server, jitter, attempt) == State(attempt, waited, None)
      decreases end - attempt
    {
      BeforeTheEnd(server, jitter, attempt, end);
      response := server(attempt, waited);
      if !IsRateLimited(response.status) { return response, attempt + 1, waited; }
      var remaining := TOTAL_BUDGET - waited;
      if remaining <= 0.0 { return response, attempt + 1, waited; }
      var waitMs: real;
      if response.asked.Some? {
        var asked := response.asked.value as real;
        if asked > remaining { return response, attempt + 1, waited; }
        waitMs := Min(Min(asked, MAX_WAIT), remaining);
      } else {
        var backoff := BASE_BACKOFF * Doubled(attempt) + jitter(attempt);
        waitMs := Min(Min(backoff, MAX_WAIT), remaining);
      }
      waited := waited + waitMs;
      attempt := attempt + 1;
    }
  }

  lemma BeforeTheEnd(server: Server, jitter: Jitter, n: nat, end: nat)
    requires Rounds(server, jitter, n).answer.None? && Rounds(server, jitter, end).answer.Some?
    ensures n < end
  {
    if end <= n { Settles(server, jitter, end, n); }
  }

  lemma {:induction false} DoubledAtLeastOne(n: nat)
    ensures Doubled(n) >= 1.0
  {
    if n > 0 { DoubledAtLeastOne(n - 1); }
  }

  // ----- the budget -----

  /**
   * However the server behaves, asks of nothing and negative ones included: never more than
   * the budget in all, never more than the cap at once.
   */
  lemma {:induction false} WithinBudget(server: Server, jitter: Jitter, n: nat)
    ensures Rounds(server, jitter, n).waited <= TOTAL_BUDGET
    ensures Rounds(server, jitter, n + 1).waited - Rounds(server, jitter, n).waited <= MAX_WAIT
  {
    if n > 0 { WithinBudget(server, jitter, n - 1); }
  }

  /** The state only settles: once answered, always answered, and with the same answer. */
  lemma {:induction false} Settles(server: Server, jitter: Jitter, n: nat, m: nat)
    requires n <= m && Rounds(server, jitter, n).answer.Some?
    ensures Rounds(server, jitter, m) == Rounds(server, jitter, n)
    decreases m
  {
    if n < m { Settles(server, jitter, n, m - 1); }
  }

  // ----- one round -----

  /** The least of what was wanted, five seconds and what is left of two minutes. */
  predicate WaitIs(wait: real, wanted: real, left: real) {
    && wait <= wanted && wait <= 5000.0 && wait <= left
    && (wait == wanted || wait == 5000.0 || wait == left)
  }

  /**
   * What follows an unanswered round. The response is the answer exactly if its status is
   * neither 429 nor 503, or nothing is left of two minutes, or the server asks for more than
   * is left; otherwise the call waits for as long as the server asked, or for the backoff if
   * it did not, but never longer than five seconds or than is left.
   */
  lemma RoundExactly(server: Server, jitter: Jitter, n: nat)
    requires Rounds(server, jitter, n).answer.None?
    ensures var before, after := Rounds(server, jitter, n), Rounds(server, jitter, n + 1);
            var r, left := server(n, before.waited), 120000.0 - before.waited;
            && (after.answer.Some? <==>
                  (r.status != 429 && r.status != 503) || left <= 0.0 || (r.asked.Some? && r.asked.value as real > left))
            && (after.answer.Some? ==> after.answer == Some(r) && after.waited == before.waited)
            && (after.answer.None? ==>
                  WaitIs(after.waited - before.waited,
                         if r.asked.Some? then r.asked.value as real else 250.0 * Doubled(n) + jitter(n), left))
  {
    AttemptIsRound(server, jitter, n);
    hide Doubled;
  }

  /** Only a 429 or a 503 is ever asked again, and the answer is what the server said last. */
  lemma {:induction false} OnlyRefusalsAreRetried(server: Server, jitter: Jitter, n: nat)
    ensures var st := Rounds(server, jitter, n);
            && (forall i: nat :: i < st.attempt ==>
                  Rounds(server, jitter, i).answer.None?
                  && server(i, Rounds(server, jitter, i).waited).status in {429, 503})
            && (st.answer.Some? ==> st.answer == Some(server(st.attempt, st.waited)))
  {
    if n > 0 {
      OnlyRefusalsAreRetried(server, jitter, n - 1);
      var before := Rounds(server, jitter, n - 1);
      if before.answer.None? {
        AttemptIsRound(server, jitter, n - 1);
        RoundExactly(server, jitter, n - 1);
        hide Doubled, Min;
      }
    }
  }

  // ----- no Retry-After -----

  ghost predicate NeverAsks(server: Server) {
    forall i: nat, t: real :: server(i, t).asked.None?
  }

  /** The least that can have been waited after `n` backoffs, the budget aside. */
  function LeastBackoff(n: nat): real {
    if n <= 5 then 250.0 * (Doubled(n) - 1.0) else LeastBackoff(5) + 5000.0 * (n - 5) as real
  }

  lemma DoubledValues()
    ensures Doubled(0) == 1.0 && Doubled(1) == 2.0 && Doubled(2) == 4.0 && Doubled(3) == 8.0
    ensures Doubled(4) == 16.0 && Doubled(5) == 32.0
  {
  }

  lemma {:induction false} DoubledPast(n: nat)
    requires n >= 5
    ensures Doubled(n) >= 32.0
  {
    DoubledValues();
    if n > 5 { DoubledPast(n - 1); }
  }

  /** One backoff moves the total from one bound to the next, or spends the budget. */
  lemma BackoffStep(n: nat, waited: real, wait: real, jitter: real)
    requires Min(LeastBackoff(n), TOTAL_BUDGET) <= waited <= TOTAL_BUDGET && 0.0 <= jitter
    requires wait == Min(Min(BASE_BACKOFF * Doubled(n) + jitter, MAX_WAIT), TOTAL_BUDGET - waited)
    ensures Min(LeastBackoff(n + 1), TOTAL_BUDGET) <= waited + wait <= TOTAL_BUDGET
    ensures jitter == 0.0 && waited == Min(LeastBackoff(n), TOTAL_BUDGET) ==>
              waited + wait == Min(LeastBackoff(n + 1), TOTAL_BUDGET)
  {
    DoubledValues();
    if n >= 5 {
      DoubledPast(n);
    } else {
      assert Doubled(n + 1) == 2.0 * Doubled(n);
      assert Doubled(n) <= 16.0;
    }
  }

  lemma {:induction false} BackoffBound(server: Server, jitter: Jitter, n: nat)
    requires IsJitter(jitter) && NeverAsks(server)
    ensures var st := Rounds(server, jitter, n);
            && st.waited <= TOTAL_BUDGET
            && (st.answer.None? ==> st.attempt == n && Min(LeastBackoff(n), TOTAL_BUDGET) <= st.waited)
  {
    hide LeastBackoff, Doubled;
    if n == 0 {
      assert LeastBackoff(0) == 0.0 by { DoubledValues(); LeastAtZero(); }
    } else {
      BackoffBound(server, jitter, n - 1);
      var st := Rounds(server, jitter, n - 1);
      if Rounds(server, jitter, n).answer.None? {
        BackoffStep(n - 1, st.waited, Rounds(server, jitter, n).waited - st.waited, jitter(n - 1));
      }
    }
  }

  lemma LeastAtZero()
    ensures LeastBackoff(0) == 0.0
  {
    DoubledValues();
  }

  lemma LeastAt28()
    ensures LeastBackoff(28) >= TOTAL_BUDGET
    ensures LeastBackoff(27) < TOTAL_BUDGET
  {
    DoubledValues();
  }

  /** Without the header, the 29th request is the last, whatever the jitter. */
  lemma AtMost29Requests(server: Server, jitter: Jitter)
    requires IsJitter(jitter) && NeverAsks(server)
    ensures Rounds(server, jitter, 29).answer.Some?
    ensures forall n :: Rounds(server, jitter, n).answer.Some? ==> Rounds(server, jitter, n).attempt + 1 <= 29
  {
    BackoffBound(server, jitter, 28);
    LeastAt28();
    assert Rounds(server, jitter, 29).answer.Some?;
    forall n | Rounds(server, jitter, n).answer.Some?
      ensures Rounds(server, jitter, n).attempt + 1 <= 29
    {
      AttemptBelow(server, jitter, 29);
      if n <= 29 { Settles(server, jitter, n, 29); } else { Settles(server, jitter, 29, n); }
    }
  }

  lemma {:induction false} AttemptBelow(server: Server, jitter: Jitter, n: nat)
    ensures Rounds(server, jitter, n).attempt <= n
    ensures Rounds(server, jitter, n).answer.Some? ==> Rounds(server, jitter, n).attempt < n
  {
    if n > 0 { AttemptBelow(server, jitter, n - 1); }
  }

  function Refusing(i: nat, t: real): Response { Response(429, None) }

  function NoJitter(i: nat): real { 0.0 }

  /** And 29 is reached: a server that never recovers, and no jitter. */
  lemma {:induction false} NoJitterBackoff(n: nat)
    requires n <= 28
    ensures Rounds(Refusing, NoJitter, n) == State(n, Min(LeastBackoff(n), TOTAL_BUDGET), None)
  {
    hide Doubled, LeastBackoff;
    if n == 0 {
      LeastAtZero();
    } else {
      NoJitterBackoff(n - 1);
      BelowBudget(n - 1);
      var waited := Min(LeastBackoff(n - 1), TOTAL_BUDGET);
      var wait := Min(Min(BASE_BACKOFF * Doubled(n - 1) + 0.0, MAX_WAIT), TOTAL_BUDGET - waited);
      BackoffStep(n - 1, waited, wait, 0.0);
    }
  }

  lemma BelowBudget(n: nat)
    requires n <= 27
    ensures LeastBackoff(n) < TOTAL_BUDGET
  {
    DoubledValues();
  }

  lemma Reaches29()
    ensures Rounds(Refusing, NoJitter, 29) == State(28, TOTAL_BUDGET, Some(Response(429, None)))
  {
    NoJitterBackoff(28);
    LeastAt28();
  }

  // ----- a Retry-After that counts down -----

  /** Refuses until `recovery` ms have passed, asking each time for exactly what is left. */
  function CountingDown(recovery: int): Server {
    (i: nat, t: real) =>
      if t >= recovery as real then Response(200, None) else Response(429, Some(recovery - t.Floor))
  }

  function CeilDiv(a: int, b: int): int
    requires b > 0
  {
    (a + b - 1) / b
  }

  lemma {:induction false} CountdownSteps(recovery: int, jitter: Jitter, n: nat)
    requires 0 < recovery <= 120000 && 5000 * (n - 1) < recovery
    ensures var w := if 5000 * n <= recovery then 5000 * n else recovery;
            Rounds(CountingDown(recovery), jitter, n) == State(n, w as real, None)
  {
    if n > 0 {
      CountdownSteps(recovery, jitter, n - 1);
      var before := 5000 * (n - 1);
      assert Rounds(CountingDown(recovery), jitter, n - 1) == State(n - 1, before as real, None);
      assert (before as real).Floor == before;
    }
  }

  /**
   * Against an exact countdown the call succeeds after waiting exactly the time to
   * recovery, in one request per five seconds or part of it and one more; and if recovery
   * lies beyond the budget it stops after a single request, having waited for nothing.
   */
  lemma ExactCountdown(recovery: int, jitter: Jitter)
    requires recovery > 0
    ensures var server := CountingDown(recovery);
            if recovery <= 120000 then
              var requests := CeilDiv(recovery, 5000) + 1;
              Rounds(server, jitter, requests) == State(requests - 1, recovery as real, Some(Response(200, None)))
            else
              Rounds(server, jitter, 1) == State(0, 0.0, Some(Response(429, Some(recovery))))
  {
    if recovery <= 120000 {
      var waits := CeilDiv(recovery, 5000);
      assert 5000 * (waits - 1) < recovery <= 5000 * waits;
      CountdownSteps(recovery, jitter, waits);
    } else {
      assert Rounds(CountingDown(recovery), jitter, 0) == State(0, 0.0, None);
      assert (0.0).Floor == 0;
    }
  }

  // ----- recovery is noticed -----

  /** Refuses before `recovery` and never after, with whatever headers it likes. */
  ghost predicate RecoversAt(server: Server, recovery: real) {
    forall i: nat, t: real :: IsRateLimited(server(i, t).status) <==> t < recovery
  }

  /** A success comes less than five seconds after the server could have given it. */
  lemma {:induction false} NoticedWithinTheCap(server: Server, jitter: Jitter, recovery: real, n: nat)
    requires RecoversAt(server, recovery) && recovery > 0.0
    ensures Rounds(server, jitter, n).waited < recovery + MAX_WAIT
    ensures var st := Rounds(server, jitter, n);
            st.answer.Some? && !IsRateLimited(st.answer.value.status) ==> recovery <= st.waited < recovery + MAX_WAIT
  {
    if n > 0 {
      NoticedWithinTheCap(server, jitter, recovery, n - 1);
      WithinBudget(server, jitter, n - 1);
      var st := Rounds(server, jitter, n - 1);
      assert IsRateLimited(server(st.attempt, st.waited).status) <==> st.waited < recovery;
    }
  }

  // ----- when the call ends -----

  /** Round number `i` is refused with a Retry-After below zero, which gives waiting time back. */
  predicate AskedBelowZero(server: Server, jitter: Jitter, i: nat) {
    var st := Rounds(server, jitter, i);
    st.answer.None?
    && var r := server(st.attempt, st.waited); IsRateLimited(r.status) && r.asked.Some? && r.asked.value < 0
  }

  ghost predicate NotBelowZeroFrom(server: Server, jitter: Jitter, k: nat) {
    forall i: nat :: i >= k ==> !AskedBelowZero(server, jitter, i)
  }

  /** A refusal that asks for no time at all. */
  predicate AsksForNothing(r: Response) {
    IsRateLimited(r.status) && r.asked == Some(0)
  }

  /** With budget left after `k` rounds, the server goes on to refuse and ask for nothing for ever. */
  ghost predicate StuckAt(server: Server, jitter: Jitter, k: nat) {
    var st := Rounds(server, jitter, k);
    && st.answer.None? && st.waited < TOTAL_BUDGET
    && forall i: nat :: i >= k ==> AsksForNothing(server(i, st.waited))
  }

  lemma {:induction false} AttemptIsRound(server: Server, jitter: Jitter, n: nat)
    ensures Rounds(server, jitter, n).answer.None? ==> Rounds(server, jitter, n).attempt == n
  {
    if n > 0 { AttemptIsRound(server, jitter, n - 1); }
  }

  /** While it asks for nothing no time passes, and nothing else changes. */
  lemma {:induction false} NothingPasses(server: Server, jitter: Jitter, k: nat, n: nat)
    requires k <= n && Rounds(server, jitter, k).answer.None? && Rounds(server, jitter, k).waited < TOTAL_BUDGET
    requires forall i: nat :: k <= i < n ==> AsksForNothing(server(i, Rounds(server, jitter, k).waited))
    ensures Rounds(server, jitter, n) == State(n, Rounds(server, jitter, k).waited, None)
    decreases n
  {
    AttemptIsRound(server, jitter, k);
    hide Doubled;
    if n > k {
      NothingPasses(server, jitter, k, n - 1);
      assert AsksForNothing(server(n - 1, Rounds(server, jitter, k).waited));
    }
  }

  lemma StuckNeverEnds(server: Server, jitter: Jitter, k: nat)
    requires StuckAt(server, jitter, k)
    ensures !Ends(server, jitter)
  {
    forall n: nat ensures Rounds(server, jitter, n).answer.None? {
      if n >= k { NothingPasses(server, jitter, k, n); }
      else if Rounds(server, jitter, n).answer.Some? { Settles(server, jitter, n, k); }
    }
  }

  /** Any other refusal uses up a millisecond at least, or all that is left. */
  lemma TimeIsSpent(server: Server, jitter: Jitter, n: nat)
    requires IsJitter(jitter) && Rounds(server, jitter, n + 1).answer.None?
    requires !AskedBelowZero(server, jitter, n) && !AsksForNothing(server(n, Rounds(server, jitter, n).waited))
    ensures var before, after := Rounds(server, jitter, n).waited, Rounds(server, jitter, n + 1).waited;
            before < TOTAL_BUDGET && (after >= before + 1.0 || after == TOTAL_BUDGET)
  {
    AttemptIsRound(server, jitter, n);
    var st := Rounds(server, jitter, n);
    var r := server(st.attempt, st.waited);
    DoubledAtLeastOne(n);
    assert WaitAfter(r, n, TOTAL_BUDGET - st.waited, jitter(n)).Some?;
  }

  /** Never ended and never asked below zero from round `k` on, the call has got stuck somewhere. */
  lemma {:induction false} GetsStuck(server: Server, jitter: Jitter, k: nat) returns (at: nat)
    requires IsJitter(jitter) && !Ends(server, jitter)
    requires NotBelowZeroFrom(server, jitter, k)
    ensures StuckAt(server, jitter, at)
    decreases if Rounds(server, jitter, k).waited >= TOTAL_BUDGET then 0
              else (TOTAL_BUDGET - Rounds(server, jitter, k).waited).Floor + 1
  {
    at := k;
    var waited := Rounds(server, jitter, k).waited;
    assert Rounds(server, jitter, k + 1).answer.None?;
    assert waited < TOTAL_BUDGET;
    if i: nat :| i >= k && !AsksForNothing(server(i, waited)) {
      var j := k;
      while AsksForNothing(server(j, waited))
        invariant k <= j <= i
        invariant forall m: nat :: k <= m < j ==> AsksForNothing(server(m, waited))
        decreases i - j
      {
        j := j + 1;
      }
      NothingPasses(server, jitter, k, j);
      assert Rounds(server, jitter, j + 1).answer.None?;
      TimeIsSpent(server, jitter, j);
      at := GetsStuck(server, jitter, j + 1);
    }
  }

  /**
   * The call ends exactly unless the server comes to refuse and ask for nothing for ever, or
   * never stops asking for less than nothing: for every server, and every jitter.
   */
  lemma GivesUpExactly(server: Server, jitter: Jitter)
    requires IsJitter(jitter)
    ensures Ends(server, jitter) <==>
              && !(exists k: nat :: StuckAt(server, jitter, k))
              && (exists k: nat :: NotBelowZeroFrom(server, jitter, k))
  {
    if Ends(server, jitter) {
      forall k: nat ensures !StuckAt(server, jitter, k) {
        if StuckAt(server, jitter, k) { StuckNeverEnds(server, jitter, k); }
      }
      var n: nat :| Rounds(server, jitter, n).answer.Some?;
      forall i: nat | i >= n ensures !AskedBelowZero(server, jitter, i) { Settles(server, jitter, n, i); }
      assert NotBelowZeroFrom(server, jitter, n);
    } else if k: nat :| NotBelowZeroFrom(server, jitter, k) {
      var at := GetsStuck(server, jitter, k);
    }
  }

  /** A server that asks, when it asks, for some time: the call ends. */
  lemma AskedForTimeEnds(server: Server, jitter: Jitter)
    requires IsJitter(jitter) && AsksForTime(server)
    ensures Ends(server, jitter)
  {
    GivesUpExactly(server, jitter);
    forall k: nat ensures !StuckAt(server, jitter, k) {
      assert !AsksForNothing(server(k, Rounds(server, jitter, k).waited));
    }
    assert NotBelowZeroFrom(server, jitter, 0);
  }

  /** A server that refuses for ever and always asks for the same. */
  function AskingAlways(asked: int): Server {
    (i: nat, t: real) => Response(429, Some(asked))
  }

  lemma {:induction false} NoTimePasses(asked: int, jitter: Jitter, n: nat)
    requires asked <= 0
    ensures Rounds(AskingAlways(asked), jitter, n).answer.None?
    ensures Rounds(AskingAlways(asked), jitter, n).waited <= 0.0
  {
    if n > 0 { NoTimePasses(asked, jitter, n - 1); }
  }

  /** It is given up on exactly if it asks for any time at all. */
  lemma ConstantAskExactly(asked: int, jitter: Jitter)
    requires IsJitter(jitter)
    ensures Ends(AskingAlways(asked), jitter) <==> asked > 0
  {
    if asked > 0 {
      AskedForTimeEnds(AskingAlways(asked), jitter);
    } else {
      forall n: nat ensures Rounds(AskingAlways(asked), jitter, n).answer.None? { NoTimePasses(asked, jitter, n); }
    }
  }

  /** Asks for a second once, and for nothing ever after. */
  function SecondThenNothing(i: nat, t: real): Response {
    Response(429, Some(if i == 0 then 1000 else 0))
  }

  /** Which is enough for the call never to end. */
  lemma SecondThenNothingNeverEnds(jitter: Jitter)
    ensures StuckAt(SecondThenNothing, jitter, 1) && !Ends(SecondThenNothing, jitter)
  {
    assert Rounds(SecondThenNothing, jitter, 0) == State(0, 0.0, None);
    assert Rounds(SecondThenNothing, jitter, 1) == State(1, 1000.0, None);
    StuckNeverEnds(SecondThenNothing, jitter, 1);
  }
}
