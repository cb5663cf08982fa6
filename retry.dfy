/**
  The two retry policies of the program. Outlook (`outlook_utils.py`,
  `generate_and_pdf.py`) retries a COM call only while it fails with one of
  two transient messages; SMTP (`smtp_email_sender.py`) retries on any
  failure. The outcome of each attempt is an oracle, numbered from 0 for
  the first attempt, and every `time.sleep` adds one to a counter.
 */
module Retry {
  import opened Strings
  import Config

  /** What one attempt of a remote call does: return, or raise an exception with a message. */
  datatype Attempt = Success | Failure(message: string)

  /** How a retried call ends. */
  datatype Retried =
    | Succeeded(attempt: nat)                  // attempt number `attempt` (from 0) returned
    | Raised(message: string, attempt: nat)     // that attempt's exception escapes
    | GaveUp                                    // the loop ran out; the caller raises `RuntimeError`

  /** Outlook's test for a failure worth retrying: the message names a rejected call. */
  predicate Transient(message: string) {
    Contains(message, Config.RejectedByCallee) || Contains(message, Config.RejectedCode)
  }

  /** Attempt `k` failed, and with a transient message. */
  predicate TransientFailure(outcome: nat -> Attempt, k: nat) {
    outcome(k).Failure? && Transient(outcome(k).message)
  }

  /** Every one of the first `n` attempts failed transiently. */
  predicate AllTransient(outcome: nat -> Attempt, n: int) {
    forall k: nat :: k < n ==> TransientFailure(outcome, k)
  }

  /** Every one of the first `n` attempts failed. */
  predicate AllFailed(outcome: nat -> Attempt, n: int) {
    forall k: nat :: k < n ==> outcome(k).Failure?
  }

  /**
    The Outlook policy from attempt `k` on: how the call ends and how many
    sleeps it took in all (one per transient failure).
   */
  function TransientFrom(outcome: nat -> Attempt, maxRetries: int, k: nat): (Retried, nat)
    decreases maxRetries - k
  {
    if k >= maxRetries then (GaveUp, k)
    else match outcome(k)
      case Success => (Succeeded(k), k)
      case Failure(message) =>
        if !Transient(message) then (Raised(message, k), k)
        else TransientFrom(outcome, maxRetries, k + 1)
  }

  /** How an Outlook call with at most `maxRetries` attempts ends, and its number of sleeps. */
  function TransientResult(outcome: nat -> Attempt, maxRetries: int): (Retried, nat) {
    TransientFrom(outcome, maxRetries, 0)
  }

  /** The SMTP policy from attempt `k` on: the last allowed attempt re-raises instead of sleeping. */
  function AnyFrom(outcome: nat -> Attempt, maxRetries: int, k: nat): (Retried, nat)
    decreases maxRetries - k
  {
    if k >= maxRetries then (GaveUp, k)
    else match outcome(k)
      case Success => (Succeeded(k), k)
      case Failure(message) =>
        if k + 1 < maxRetries then AnyFrom(outcome, maxRetries, k + 1)
        else (Raised(message, k), k)
  }

  /** How an SMTP send with at most `maxRetries` attempts ends, and its number of sleeps. */
  function AnyResult(outcome: nat -> Attempt, maxRetries: int): (Retried, nat) {
    AnyFrom(outcome, maxRetries, 0)
  }

  /**
    How the Outlook policy ends after at most `maxRetries` attempts: success
    or a non-transient failure at some attempt, every earlier attempt having
    failed transiently with one sleep each; or, exactly when all allowed
    attempts failed transiently, giving up after one sleep per attempt.
   */
  predicate TransientPolicy(outcome: nat -> Attempt, maxRetries: int, r: Retried, sleeps: nat) {
    && (r.Succeeded? ==> r.attempt < maxRetries && outcome(r.attempt) == Success)
    && (r.Raised? ==> r.attempt < maxRetries && outcome(r.attempt) == Failure(r.message) && !Transient(r.message))
    && (!r.GaveUp? ==> AllTransient(outcome, r.attempt) && sleeps == r.attempt)
    && (r.GaveUp? <==> AllTransient(outcome, maxRetries))
    && (r.GaveUp? ==> sleeps == if maxRetries < 0 then 0 else maxRetries)
  }

  /**
    How the SMTP policy ends: success at some attempt after failures only,
    one sleep per failure; the exception of the last allowed attempt when
    all of them failed, with no sleep after it; or, exactly when fewer than
    one attempt is allowed, giving up without trying.
   */
  predicate AnyPolicy(outcome: nat -> Attempt, maxRetries: int, r: Retried, sleeps: nat) {
    && (r.Succeeded? ==> r.attempt < maxRetries && outcome(r.attempt) == Success && sleeps == r.attempt)
    && (r.Raised? ==> r.attempt == maxRetries - 1 && outcome(r.attempt) == Failure(r.message) && sleeps == r.attempt)
    && (!r.GaveUp? ==> AllFailed(outcome, r.attempt))
    && (r.GaveUp? <==> maxRetries < 1)
    && (r.GaveUp? ==> sleeps == 0)
  }

  /**
    The Outlook loop `for attempt in range(1, max_retries + 1)`: stop at the
    first success, sleep and go on after a transient failure, let any other
    failure propagate at once. `sleeps` counts the calls to `time.sleep`.
   */
  method RetryTransient(outcome: nat -> Attempt, maxRetries: int) returns (r: Retried, sleeps: nat)
    ensures (r, sleeps) == TransientResult(outcome, maxRetries)
  {
    sleeps := 0;
    var attempt: nat := 0;
    while attempt < maxRetries
      invariant TransientFrom(outcome, maxRetries, attempt) == TransientResult(outcome, maxRetries)
      invariant sleeps == attempt
      decreases maxRetries - attempt
    {
      match outcome(attempt)
      case Success =>
        return Succeeded(attempt), sleeps;
      case Failure(message) =>
        if !Transient(message) {
          return Raised(message, attempt), sleeps;
        }
        sleeps := sleeps + 1;
        attempt := attempt + 1;
    }
    r := GaveUp;
  }

  /**
    The SMTP loop of `_send_via_smtp`: stop at the first success; after a
    failure, sleep if another attempt follows, otherwise re-raise that
    failure. The loop runs out, and the caller raises, only when fewer than
    one attempt is allowed.
   */
  method RetryAny(outcome: nat -> Attempt, maxRetries: int) returns (r: Retried, sleeps: nat)
    ensures (r, sleeps) == AnyResult(outcome, maxRetries)
  {
    sleeps := 0;
    var attempt: nat := 0;
    while attempt < maxRetries
      invariant AnyFrom(outcome, maxRetries, attempt) == AnyResult(outcome, maxRetries)
      invariant sleeps == attempt
      decreases maxRetries - attempt
    {
      match outcome(attempt)
      case Success =>
        return Succeeded(attempt), sleeps;
      case Failure(message) =>
        if attempt + 1 < maxRetries {
          sleeps := sleeps + 1;
        } else {
          return Raised(message, attempt), sleeps;
        }
        attempt := attempt + 1;
    }
    r := GaveUp;
  }

  /** From attempt `k`, after `k` transient failures, the Outlook policy ends as `TransientPolicy` says. */
  lemma {:induction false} TransientFromPolicy(outcome: nat -> Attempt, maxRetries: int, k: nat)
    requires AllTransient(outcome, k) && (maxRetries >= 0 ==> k <= maxRetries) && (maxRetries < 0 ==> k == 0)
    ensures TransientPolicy(outcome, maxRetries, TransientFrom(outcome, maxRetries, k).0, TransientFrom(outcome, maxRetries, k).1)
    decreases maxRetries - k
  {
    if k < maxRetries {
      match outcome(k)
      case Success =>
        assert !TransientFailure(outcome, k);
      case Failure(message) =>
        assert !Transient(message) ==> !TransientFailure(outcome, k);
        if Transient(message) {
          assert TransientFailure(outcome, k);
          TransientFromPolicy(outcome, maxRetries, k + 1);
        }
    }
  }

  /** The Outlook loop ends as `TransientPolicy` says. */
  lemma {:induction false} TransientResultPolicy(outcome: nat -> Attempt, maxRetries: int)
    ensures TransientPolicy(outcome, maxRetries, TransientResult(outcome, maxRetries).0, TransientResult(outcome, maxRetries).1)
  {
    TransientFromPolicy(outcome, maxRetries, 0);
  }

  /** From attempt `k`, after `k` failures, the SMTP policy ends as `AnyPolicy` says. */
  lemma {:induction false} AnyFromPolicy(outcome: nat -> Attempt, maxRetries: int, k: nat)
    requires AllFailed(outcome, k) && (maxRetries >= 1 ==> k < maxRetries) && (maxRetries < 1 ==> k == 0)
    ensures AnyPolicy(outcome, maxRetries, AnyFrom(outcome, maxRetries, k).0, AnyFrom(outcome, maxRetries, k).1)
    decreases maxRetries - k
  {
    if k < maxRetries {
      match outcome(k)
      case Success =>
      case Failure(message) =>
        if k + 1 < maxRetries {
          AnyFromPolicy(outcome, maxRetries, k + 1);
        }
    }
  }

  /** The SMTP loop ends as `AnyPolicy` says. */
  lemma {:induction false} AnyResultPolicy(outcome: nat -> Attempt, maxRetries: int)
    ensures AnyPolicy(outcome, maxRetries, AnyResult(outcome, maxRetries).0, AnyResult(outcome, maxRetries).1)
  {
    AnyFromPolicy(outcome, maxRetries, 0);
  }

  /** Under the Outlook policy, a call rejected until attempt `n` succeeds returns there after exactly `n` sleeps. */
  lemma {:induction false} TransientThenSuccess(outcome: nat -> Attempt, maxRetries: int, n: nat)
    requires n < maxRetries && AllTransient(outcome, n) && outcome(n) == Success
    ensures TransientResult(outcome, maxRetries) == (Succeeded(n), n)
  {
    TransientResultPolicy(outcome, maxRetries);
    var (r, sleeps) := TransientResult(outcome, maxRetries);
    assert !TransientFailure(outcome, n);
    assert r.GaveUp? ==> TransientFailure(outcome, n);
    assert !r.GaveUp? && r.attempt > n ==> TransientFailure(outcome, n);
    assert !r.GaveUp? && r.attempt < n ==> TransientFailure(outcome, r.attempt);
  }

  /** Under the Outlook policy, a non-transient failure is never retried: nothing after it is attempted. */
  lemma {:induction false} PermanentFailureStops(outcome: nat -> Attempt, maxRetries: int, n: nat)
    requires n < maxRetries && AllTransient(outcome, n)
    requires outcome(n).Failure? && !Transient(outcome(n).message)
    ensures TransientResult(outcome, maxRetries) == (Raised(outcome(n).message, n), n)
  {
    TransientResultPolicy(outcome, maxRetries);
    var (r, sleeps) := TransientResult(outcome, maxRetries);
    assert !TransientFailure(outcome, n);
    assert r.GaveUp? ==> TransientFailure(outcome, n);
    assert !r.GaveUp? && r.attempt > n ==> TransientFailure(outcome, n);
    assert !r.GaveUp? && r.attempt < n ==> TransientFailure(outcome, r.attempt);
  }

  /** Under the Outlook policy, a call that is rejected every time gives up after one sleep per attempt. */
  lemma {:induction false} AlwaysRejectedGivesUp(outcome: nat -> Attempt, maxRetries: nat)
    requires AllTransient(outcome, maxRetries)
    ensures TransientResult(outcome, maxRetries) == (GaveUp, maxRetries)
  {
    TransientResultPolicy(outcome, maxRetries);
  }

  /** Under the SMTP policy, the first success ends the call, after one sleep per earlier failure. */
  lemma {:induction false} FailuresThenSuccess(outcome: nat -> Attempt, maxRetries: int, n: nat)
    requires n < maxRetries && AllFailed(outcome, n) && outcome(n) == Success
    ensures AnyResult(outcome, maxRetries) == (Succeeded(n), n)
  {
    AnyResultPolicy(outcome, maxRetries);
    var (r, sleeps) := AnyResult(outcome, maxRetries);
    assert r.Succeeded? ==> r.attempt == n;
  }

  /** Under the SMTP policy, a call that always fails ends with the exception of its last allowed attempt. */
  lemma {:induction false} AlwaysFailingReraisesLast(outcome: nat -> Attempt, maxRetries: int)
    requires maxRetries >= 1 && AllFailed(outcome, maxRetries)
    ensures AnyResult(outcome, maxRetries) == (Raised(outcome(maxRetries - 1).message, maxRetries - 1), maxRetries - 1)
  {
    AnyResultPolicy(outcome, maxRetries);
    var (r, sleeps) := AnyResult(outcome, maxRetries);
    assert !r.Succeeded?;
  }
}
