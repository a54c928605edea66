/** Submitting constraints to the relay with retries (src/api/constraints.rs). */
module Relay {
  import opened Machine

  /** The end of one POST: a response, or no response at all. */
  datatype Outcome = Status(code: nat) | TransportError

  /** What the loop does next. */
  datatype Reaction = Succeed | Stop | RetryNow | RetryLater

  function React(o: Outcome): Reaction {
    match o
    case TransportError => RetryLater
    case Status(code) =>
      if code == 200 || code == 202 then Succeed
      else if code == 429 then RetryLater
      else if code == 408 || code == 504 then RetryNow
      else if 400 <= code < 500 then Stop
      else if 500 <= code < 600 then RetryLater
      else RetryNow
  }

  predicate Retryable(o: Outcome) {
    React(o).RetryNow? || React(o).RetryLater?
  }

  function Power2(n: nat): (p: nat)
    ensures p > 0
  {
    if n == 0 then 1 else 2 * Power2(n - 1)
  }

  /** Milliseconds slept after the given attempt, counted from 1. */
  function Delay(attempt: nat): (ms: nat)
    ensures ms <= 30_000
  {
    var ms := 100 * Power2(if attempt < 10 then attempt else 10);
    if ms < 30_000 then ms else 30_000
  }

  /** Milliseconds slept over the first `posts` attempts. */
  function Slept(outcome: nat -> Outcome, posts: nat): nat {
    if posts == 0 then 0
    else Slept(outcome, posts - 1) + (if React(outcome(posts - 1)).RetryLater? then Delay(posts) else 0)
  }

  function Attempts(maxRetries: nat): nat {
    if maxRetries < 1 then 1 else maxRetries
  }

  /** The first `n` outcomes leave the question open. */
  predicate Undecided(outcome: nat -> Outcome, n: nat) {
    forall j :: 0 <= j < n ==> Retryable(outcome(j))
  }

  /** How many POSTs there are in all, once `i` of them have left the question open. */
  function PostsFrom(outcome: nat -> Outcome, attempts: nat, i: nat): (posts: nat)
    requires i < attempts
    ensures i < posts <= attempts && forall j :: i <= j < posts - 1 ==> Retryable(outcome(j))
    ensures posts == attempts || !Retryable(outcome(posts - 1))
    decreases attempts - i
  {
    if i + 1 == attempts || !Retryable(outcome(i)) then i + 1 else PostsFrom(outcome, attempts, i + 1)
  }

  function Posts(maxRetries: nat, outcome: nat -> Outcome): (posts: nat)
    ensures 1 <= posts <= Attempts(maxRetries) && Undecided(outcome, posts - 1)
    ensures posts == Attempts(maxRetries) || !Retryable(outcome(posts - 1))
  {
    PostsFrom(outcome, Attempts(maxRetries), 0)
  }

  datatype Response = Accepted(code: nat) | Rejected(lastError: Outcome)

  /** `outcome(i)` is what the i-th POST would come to. The answer is `Accepted` exactly when the first
      outcome that is not retryable comes within the attempts and is 200 or 202; nothing is posted
      after it. An error is that of the last POST. */
  method SubmitConstraints(maxRetries: nat, outcome: nat -> Outcome) returns (r: Response, posts: nat, slept: nat)
    ensures 1 <= posts <= Attempts(maxRetries) && Undecided(outcome, posts - 1)
    ensures posts == Attempts(maxRetries) || !Retryable(outcome(posts - 1))
    ensures r == if React(outcome(posts - 1)).Succeed? then Accepted(outcome(posts - 1).code)
                 else Rejected(outcome(posts - 1))
    ensures slept == Slept(outcome, posts)
  {
    var maxAttempts := Attempts(maxRetries);
    var attempt := 0;
    var lastError: Option<Outcome> := None;
    slept := 0;
    while attempt < maxAttempts
      invariant 0 <= attempt <= maxAttempts
      invariant Undecided(outcome, attempt)
      invariant slept == Slept(outcome, attempt)
      invariant attempt > 0 ==> lastError == Some(outcome(attempt - 1))
    {
      var o := outcome(attempt);
      attempt := attempt + 1;
      match React(o) {
        case Succeed =>
          return Accepted(o.code), attempt, slept;
        case Stop =>
          return Rejected(o), attempt, slept;
        case RetryNow =>
          lastError := Some(o);
        case RetryLater =>
          slept := slept + Delay(attempt);
          lastError := Some(o);
      }
    }
    return Rejected(lastError.value), attempt, slept;
  }

  /** The contract fixes the number of POSTs. */
  lemma PostsAreUnique(maxRetries: nat, outcome: nat -> Outcome, p: nat, q: nat)
    requires 1 <= p <= Attempts(maxRetries) && Undecided(outcome, p - 1)
    requires p == Attempts(maxRetries) || !Retryable(outcome(p - 1))
    requires 1 <= q <= Attempts(maxRetries) && Undecided(outcome, q - 1)
    requires q == Attempts(maxRetries) || !Retryable(outcome(q - 1))
    ensures p == q
  {
  }

  /** The first success counts if and only if nothing before it settles the matter. */
  lemma AcceptedExactly(maxRetries: nat, outcome: nat -> Outcome, posts: nat)
    requires 1 <= posts <= Attempts(maxRetries) && Undecided(outcome, posts - 1)
    requires posts == Attempts(maxRetries) || !Retryable(outcome(posts - 1))
    ensures React(outcome(posts - 1)).Succeed?
       <==> exists i: nat :: i < Attempts(maxRetries) && Undecided(outcome, i) && React(outcome(i)).Succeed?
  {
    if i: nat :| i < Attempts(maxRetries) && Undecided(outcome, i) && React(outcome(i)).Succeed? {
      PostsAreUnique(maxRetries, outcome, posts, i + 1);
    }
    assert Undecided(outcome, posts - 1);
  }

  // ---- Status by status ----

  predicate IsSuccess(o: Outcome) {
    o == Status(200) || o == Status(202)
  }

  /** The relay's answer ends the submission: any client error but 408 and 429. */
  predicate IsFinalError(o: Outcome) {
    o.Status? && 400 <= o.code <= 499 && o.code != 408 && o.code != 429
  }

  /** The client sleeps before it posts again: no answer, too many requests, or a server error but 504. */
  predicate IsSleptOn(o: Outcome) {
    o.TransportError? || o.code == 429 || (500 <= o.code <= 599 && o.code != 504)
  }

  lemma ReactsExactly(o: Outcome)
    ensures React(o).Succeed? <==> IsSuccess(o)
    ensures React(o).Stop? <==> IsFinalError(o)
    ensures React(o).RetryLater? <==> IsSleptOn(o)
  {
  }

  /** A submission is accepted exactly when one of its attempts, at least one, ends in 200 or 202 and every
      earlier one in neither of these nor in a final error. */
  lemma AcceptedByStatus(maxRetries: nat, outcome: nat -> Outcome, posts: nat)
    requires 1 <= posts <= Attempts(maxRetries) && Undecided(outcome, posts - 1)
    requires posts == Attempts(maxRetries) || !Retryable(outcome(posts - 1))
    ensures IsSuccess(outcome(posts - 1))
       <==> exists i: nat ::
              && (i < maxRetries || i == 0) && IsSuccess(outcome(i))
              && forall j :: 0 <= j < i ==> !IsSuccess(outcome(j)) && !IsFinalError(outcome(j))
  {
    AcceptedExactly(maxRetries, outcome, posts);
    forall j: nat
      ensures React(outcome(j)).Succeed? <==> IsSuccess(outcome(j))
      ensures Retryable(outcome(j)) <==> !IsSuccess(outcome(j)) && !IsFinalError(outcome(j))
    {
      ReactsExactly(outcome(j));
    }
    if i: nat :| i < Attempts(maxRetries) && Undecided(outcome, i) && React(outcome(i)).Succeed? {
      assert (i < maxRetries || i == 0) && IsSuccess(outcome(i));
    }
    if i: nat :| && (i < maxRetries || i == 0) && IsSuccess(outcome(i))
                 && forall j :: 0 <= j < i ==> !IsSuccess(outcome(j)) && !IsFinalError(outcome(j)) {
      assert i < Attempts(maxRetries) && Undecided(outcome, i) && React(outcome(i)).Succeed?;
    }
  }

  /** The time slept grows by the delay of each attempt slept on, and by nothing else: 200 ms doubled from
      attempt to attempt, 30 seconds from the ninth on. */
  lemma SleepsExactly(outcome: nat -> Outcome, posts: nat)
    ensures Slept(outcome, 0) == 0
    ensures Slept(outcome, posts + 1)
         == Slept(outcome, posts) + (if IsSleptOn(outcome(posts)) then Delay(posts + 1) else 0)
    ensures Delay(1) == 200 && (1 <= posts < 8 ==> Delay(posts + 1) == 2 * Delay(posts))
    ensures posts >= 9 ==> Delay(posts) == 30_000
  {
    ReactsExactly(outcome(posts));
    DelaysDouble(posts);
  }

  lemma {:induction false} DelaysDouble(attempt: nat)
    ensures Delay(1) == 200 && (1 <= attempt < 8 ==> Delay(attempt + 1) == 2 * Delay(attempt))
    ensures attempt >= 9 ==> Delay(attempt) == 30_000
  {
    assert Power2(1) == 2;
    assert Power2(3) == 8 && Power2(6) == 64 && Power2(8) == 256 && Power2(9) == 512 && Power2(10) == 1024;
    if 1 <= attempt < 8 {
      PowersUpTo(attempt + 1, 8);
      assert Power2(attempt + 1) == 2 * Power2(attempt);
    }
  }

  lemma {:induction false} PowersUpTo(m: nat, n: nat)
    requires m <= n
    ensures Power2(m) <= Power2(n)
  {
    if m < n {
      PowersUpTo(m, n - 1);
    }
  }

  // ---- The constructor's bound ----

  datatype ClientConfig = ClientConfig(endpointIsBlank: bool, timeoutSecs: nat, maxRetries: nat)

  /** The configurations `new` accepts. */
  predicate Accepts(c: ClientConfig) {
    !c.endpointIsBlank && c.timeoutSecs != 0 && c.maxRetries <= 10
  }

  /** The sum of all delays of `posts` attempts. */
  function AllDelays(posts: nat): nat {
    if posts == 0 then 0 else AllDelays(posts - 1) + Delay(posts)
  }

  lemma {:induction false} SleptAtMostAll(outcome: nat -> Outcome, posts: nat)
    ensures Slept(outcome, posts) <= AllDelays(posts)
    ensures (forall j :: 0 <= j < posts ==> React(outcome(j)).RetryLater?) ==> Slept(outcome, posts) == AllDelays(posts)
  {
    if posts > 0 {
      SleptAtMostAll(outcome, posts - 1);
    }
  }

  lemma {:induction false} AllDelaysMonotone(p: nat, q: nat)
    requires p <= q
    ensures AllDelays(p) <= AllDelays(q)
  {
    if p < q {
      AllDelaysMonotone(p, q - 1);
    }
  }

  lemma DelaysOfTen()
    ensures AllDelays(10) == 111_000
  {
    assert Power2(3) == 8 && Power2(6) == 64 && Power2(8) == 256 && Power2(9) == 512 && Power2(10) == 1024;
    assert AllDelays(3) == 1_400;
    assert AllDelays(6) == 12_600;
    assert AllDelays(8) == 51_000;
  }

  /** A client sleeps at most 111 seconds over a submission; the bound is reached when ten POSTs in a
      row end in server errors, the last delay included. */
  lemma SleepIsBounded(c: ClientConfig, outcome: nat -> Outcome, posts: nat)
    requires Accepts(c) && posts <= Attempts(c.maxRetries)
    ensures Slept(outcome, posts) <= 111_000
    ensures posts == 10 && (forall j :: 0 <= j < 10 ==> React(outcome(j)).RetryLater?)
            ==> Slept(outcome, posts) == 111_000
  {
    SleptAtMostAll(outcome, posts);
    AllDelaysMonotone(posts, 10);
    DelaysOfTen();
  }
}
