/**
 * The retry helper (src/modules/ai/utils/retry.util.ts): an operation is
 * attempted with attempt numbers 1, 2, ..., `maxRetries`; the first value it
 * returns is the result, a failure before the last attempt is reported to
 * the `onRetry` callback, and when every attempt fails the last failure is
 * thrown (`undefined` when no attempt was made).
 *
 * The operation is a function of the attempt number and of a state that the
 * attempts share, so that an operation which closes over a variable and
 * updates it (as the correction call does with its retry feedback) can be
 * expressed: an attempt receives the state left by the one before and
 * returns its outcome with the state it leaves. The timeout race and the
 * delay between attempts are not modelled.
 *
 * `RetryFrom` is the specification, `WithRetry` the source's loop, and the
 * lemmas state the behaviour attempt by attempt.
 */
module Retry {
  import opened Wrappers

  /** The whole observable behaviour of one `withRetry` call: what it returns
      or throws (`Err(None)` is `throw undefined`), the state the attempts
      left, how many times the operation ran, and the `onRetry` calls made,
      as (attempt number, error) pairs in call order. */
  datatype Run<S, T, E> = Run(result: Result<T, Option<E>>, state: S, invocations: nat, notified: seq<(nat, E)>)

  /** The behaviour from attempt number `attempt` on, `lastError` being the
      error of the attempt before (`None` before the first). */
  function RetryFrom<S, T, E>(op: (S, nat) -> (Result<T, E>, S), s: S, attempt: nat, maxRetries: int, lastError: Option<E>): Run<S, T, E>
    decreases if attempt <= maxRetries then maxRetries - attempt + 1 else 0
  {
    if attempt > maxRetries then Run(Err(lastError), s, 0, [])
    else
      var (outcome, next) := op(s, attempt);
      match outcome
      case Ok(v) => Run(Ok(v), next, 1, [])
      case Err(e) =>
        var rest := RetryFrom(op, next, attempt + 1, maxRetries, Some(e));
        Run(rest.result, rest.state, rest.invocations + 1,
            (if attempt < maxRetries then [(attempt, e)] else []) + rest.notified)
  }

  function Retry<S, T, E>(op: (S, nat) -> (Result<T, E>, S), s: S, maxRetries: int): Run<S, T, E> {
    RetryFrom(op, s, 1, maxRetries, None)
  }

  // ---------------------------------------------------------------------------
  // attempt by attempt

  /** The state in which attempt number `attempt + j` starts when the `j`
      attempts before it, from number `attempt` on, ran. */
  function StateBefore<S, T, E>(op: (S, nat) -> (Result<T, E>, S), s: S, attempt: nat, j: nat): S
    decreases j
  {
    if j == 0 then s else StateBefore(op, op(s, attempt).1, attempt + 1, j - 1)
  }

  /** The outcome of attempt number `attempt + j`. */
  function Outcome<S, T, E>(op: (S, nat) -> (Result<T, E>, S), s: S, attempt: nat, j: nat): Result<T, E> {
    op(StateBefore(op, s, attempt, j), attempt + j).0
  }

  /** The `j` attempts from number `attempt` on all fail. */
  ghost predicate FailsThrough<S, T, E>(op: (S, nat) -> (Result<T, E>, S), s: S, attempt: nat, j: nat) {
    forall i :: 0 <= i < j ==> Outcome(op, s, attempt, i).Err?
  }

  /** The `onRetry` calls for the first `j` failed attempts from number `attempt` on. */
  ghost predicate NotifiesFailures<S, T, E>(op: (S, nat) -> (Result<T, E>, S), s: S, attempt: nat, j: nat, notified: seq<(nat, E)>)
    requires FailsThrough(op, s, attempt, j)
  {
    |notified| == j
    && forall i :: 0 <= i < j ==> notified[i] == (attempt + i, Outcome(op, s, attempt, i).error)
  }

  /** The attempts after the first, seen from the state the first one left. */
  lemma OutcomeShift<S, T, E>(op: (S, nat) -> (Result<T, E>, S), s: S, attempt: nat, i: nat)
    ensures Outcome(op, s, attempt, i + 1) == Outcome(op, op(s, attempt).1, attempt + 1, i)
  {
  }

  lemma FailsThroughTail<S, T, E>(op: (S, nat) -> (Result<T, E>, S), s: S, attempt: nat, j: nat)
    requires j >= 1 && FailsThrough(op, s, attempt, j)
    ensures op(s, attempt).0.Err?
    ensures FailsThrough(op, op(s, attempt).1, attempt + 1, j - 1)
  {
    assert Outcome(op, s, attempt, 0).Err?;
    var next := op(s, attempt).1;
    var following := attempt + 1;
    forall i | 0 <= i < j - 1
      ensures Outcome(op, next, following, i).Err?
    {
      assert Outcome(op, s, attempt, i + 1) == Outcome(op, next, following, i);
    }
  }

  lemma FailsThroughCons<S, T, E>(op: (S, nat) -> (Result<T, E>, S), s: S, attempt: nat, j: nat)
    requires op(s, attempt).0.Err?
    requires FailsThrough(op, op(s, attempt).1, attempt + 1, j)
    ensures FailsThrough(op, s, attempt, j + 1)
  {
    var next := op(s, attempt).1;
    var following := attempt + 1;
    forall i | 0 <= i < j + 1
      ensures Outcome(op, s, attempt, i).Err?
    {
      if i > 0 {
        assert Outcome(op, s, attempt, i) == Outcome(op, next, following, i - 1);
      }
    }
  }

  lemma NotifiesCons<S, T, E>(op: (S, nat) -> (Result<T, E>, S), s: S, attempt: nat, j: nat, rest: seq<(nat, E)>)
    requires j >= 1 && FailsThrough(op, s, attempt, j)
    requires op(s, attempt).0.Err?
    requires FailsThrough(op, op(s, attempt).1, attempt + 1, j - 1)
    requires NotifiesFailures(op, op(s, attempt).1, attempt + 1, j - 1, rest)
    ensures NotifiesFailures(op, s, attempt, j, [(attempt, op(s, attempt).0.error)] + rest)
  {
    var notified := [(attempt, op(s, attempt).0.error)] + rest;
    forall i | 0 <= i < j
      ensures notified[i] == (attempt + i, Outcome(op, s, attempt, i).error)
    {
      if i > 0 {
        assert Outcome(op, s, attempt, i) == Outcome(op, op(s, attempt).1, attempt + 1, i - 1);
      }
    }
  }

  /** When the attempts numbered `attempt` to `attempt + j - 1` fail and
      attempt `attempt + j` (still within `maxRetries`) succeeds, its value
      is returned after `j + 1` invocations, and each of the `j` failures was
      reported to `onRetry`, in order. */
  lemma {:induction false} RetryFromSucceeds<S, T, E>(op: (S, nat) -> (Result<T, E>, S), s: S, attempt: nat, maxRetries: int, lastError: Option<E>, j: nat)
    requires attempt + j <= maxRetries
    requires FailsThrough(op, s, attempt, j)
    requires Outcome(op, s, attempt, j).Ok?
    ensures var run := RetryFrom(op, s, attempt, maxRetries, lastError);
      run.result == Ok(Outcome(op, s, attempt, j).value)
      && run.invocations == j + 1
      && run.state == StateBefore(op, s, attempt, j + 1)
      && NotifiesFailures(op, s, attempt, j, run.notified)
    decreases j
  {
    var (outcome, next) := op(s, attempt);
    if j == 0 {
      assert Outcome(op, s, attempt, 0) == outcome;
    } else {
      FailsThroughTail(op, s, attempt, j);
      var e := outcome.error;
      assert Outcome(op, s, attempt, j) == Outcome(op, next, attempt + 1, j - 1);
      RetryFromSucceeds(op, next, attempt + 1, maxRetries, Some(e), j - 1);
      var rest := RetryFrom(op, next, attempt + 1, maxRetries, Some(e));
      NotifiesCons(op, s, attempt, j, rest.notified);
    }
  }

  /** When every attempt from number `attempt` to `maxRetries` fails, all of
      them run, the error of the last one is thrown (or `lastError` when
      there is none left to make), and every failure but the last is
      reported to `onRetry`, in order. */
  lemma {:induction false} RetryFromExhausts<S, T, E>(op: (S, nat) -> (Result<T, E>, S), s: S, attempt: nat, maxRetries: int, lastError: Option<E>)
    requires attempt <= maxRetries + 1
    requires FailsThrough(op, s, attempt, maxRetries + 1 - attempt)
    ensures var n := maxRetries + 1 - attempt;
      var run := RetryFrom(op, s, attempt, maxRetries, lastError);
      run.result == Err(if n == 0 then lastError else Some(Outcome(op, s, attempt, n - 1).error))
      && run.invocations == n
      && run.state == StateBefore(op, s, attempt, n)
      && (n >= 1 ==> NotifiesFailures(op, s, attempt, n - 1, run.notified))
    decreases maxRetries + 1 - attempt
  {
    var n := maxRetries + 1 - attempt;
    if n > 0 {
      var (outcome, next) := op(s, attempt);
      FailsThroughTail(op, s, attempt, n);
      var e := outcome.error;
      RetryFromExhausts(op, next, attempt + 1, maxRetries, Some(e));
      var rest := RetryFrom(op, next, attempt + 1, maxRetries, Some(e));
      if n == 1 {
        assert Outcome(op, s, attempt, 0) == outcome;
      } else {
        assert Outcome(op, s, attempt, n - 1) == Outcome(op, next, attempt + 1, n - 2);
        FailsThroughTail(op, s, attempt, n - 1);
        NotifiesCons(op, s, attempt, n - 1, rest.notified);
      }
    }
  }

  /** The first successful attempt's value is returned: when attempts
      1..k fail and attempt k + 1 <= `maxRetries` succeeds, the operation ran
      k + 1 times and `onRetry` was called exactly k times, with attempt
      numbers 1..k in order. */
  lemma RetrySucceeds<S, T, E>(op: (S, nat) -> (Result<T, E>, S), s: S, maxRetries: int, k: nat)
    requires k + 1 <= maxRetries
    requires FailsThrough(op, s, 1, k)
    requires Outcome(op, s, 1, k).Ok?
    ensures var run := Retry(op, s, maxRetries);
      run.result == Ok(Outcome(op, s, 1, k).value)
      && run.invocations == k + 1
      && |run.notified| == k
      && forall i :: 0 <= i < k ==> run.notified[i] == (i + 1, Outcome(op, s, 1, i).error)
  {
    RetryFromSucceeds(op, s, 1, maxRetries, None, k);
  }

  /** When all `maxRetries` attempts fail, the error of the last attempt is
      thrown and `onRetry` was called `maxRetries - 1` times, never after the
      final attempt. */
  lemma RetryExhausts<S, T, E>(op: (S, nat) -> (Result<T, E>, S), s: S, maxRetries: int)
    requires maxRetries >= 1
    requires FailsThrough(op, s, 1, maxRetries)
    ensures var run := Retry(op, s, maxRetries);
      run.result == Err(Some(Outcome(op, s, 1, maxRetries - 1).error))
      && run.invocations == maxRetries
      && |run.notified| == maxRetries - 1
      && forall i :: 0 <= i < |run.notified| ==> run.notified[i] == (i + 1, Outcome(op, s, 1, i).error)
  {
    RetryFromExhausts(op, s, 1, maxRetries, None);
  }

  /** Conversely, a value is only ever returned when some attempt within
      the limit produced it after the attempts before it failed, and an
      error is only thrown when every remaining attempt failed. */
  lemma {:induction false} RetryFromOutcome<S, T, E>(op: (S, nat) -> (Result<T, E>, S), s: S, attempt: nat, maxRetries: int, lastError: Option<E>)
    ensures var run := RetryFrom(op, s, attempt, maxRetries, lastError);
      (run.result.Ok? ==> exists j: nat :: attempt + j <= maxRetries && FailsThrough(op, s, attempt, j)
                                            && Outcome(op, s, attempt, j) == Ok(run.result.value))
      && (run.result.Err? ==> FailsThrough(op, s, attempt, if attempt <= maxRetries then maxRetries + 1 - attempt else 0))
    decreases if attempt <= maxRetries then maxRetries - attempt + 1 else 0
  {
    var run := RetryFrom(op, s, attempt, maxRetries, lastError);
    if attempt <= maxRetries {
      var (outcome, next) := op(s, attempt);
      assert Outcome(op, s, attempt, 0) == outcome;
      if outcome.Ok? {
        assert FailsThrough(op, s, attempt, 0);
      } else {
        RetryFromOutcome(op, next, attempt + 1, maxRetries, Some(outcome.error));
        var rest := RetryFrom(op, next, attempt + 1, maxRetries, Some(outcome.error));
        assert run.result == rest.result;
        if rest.result.Ok? {
          var j: nat :| attempt + 1 + j <= maxRetries && FailsThrough(op, next, attempt + 1, j)
                        && Outcome(op, next, attempt + 1, j) == Ok(rest.result.value);
          FailsThroughCons(op, s, attempt, j);
          assert Outcome(op, s, attempt, j + 1) == Outcome(op, next, attempt + 1, j);
        } else {
          FailsThroughCons(op, s, attempt, if attempt + 1 <= maxRetries then maxRetries - attempt else 0);
        }
      }
    }
  }

  /** `withRetry` returns a value exactly when one of the `maxRetries`
      attempts succeeds, and then it is the first success's value; it throws
      exactly when all of them fail. */
  lemma RetryOutcome<S, T, E>(op: (S, nat) -> (Result<T, E>, S), s: S, maxRetries: int)
    ensures var run := Retry(op, s, maxRetries);
      (run.result.Ok? ==> exists j: nat :: j < maxRetries && FailsThrough(op, s, 1, j)
                                            && Outcome(op, s, 1, j) == Ok(run.result.value))
      && (run.result.Err? ==> FailsThrough(op, s, 1, if maxRetries >= 0 then maxRetries else 0))
  {
    RetryFromOutcome(op, s, 1, maxRetries, None);
  }

  /** With `maxRetries <= 0` the operation never runs and `undefined` is thrown. */
  lemma RetryNeverInvoked<S, T, E>(op: (S, nat) -> (Result<T, E>, S), s: S, maxRetries: int)
    requires maxRetries <= 0
    ensures Retry(op, s, maxRetries) == Run(Err(None), s, 0, [])
  {
  }

  /** The operation runs at most `maxRetries` times, and every `onRetry` call
      names an attempt before the last one allowed. */
  lemma {:induction false} RetryFromBounded<S, T, E>(op: (S, nat) -> (Result<T, E>, S), s: S, attempt: nat, maxRetries: int, lastError: Option<E>)
    requires attempt >= 1
    ensures var run := RetryFrom(op, s, attempt, maxRetries, lastError);
      run.invocations <= (if attempt <= maxRetries then maxRetries + 1 - attempt else 0)
      && forall i :: 0 <= i < |run.notified| ==> attempt <= run.notified[i].0 < maxRetries
    decreases if attempt <= maxRetries then maxRetries - attempt + 1 else 0
  {
    if attempt <= maxRetries {
      var (outcome, next) := op(s, attempt);
      if outcome.Err? {
        RetryFromBounded(op, next, attempt + 1, maxRetries, Some(outcome.error));
      }
    }
  }

  lemma RetryBounded<S, T, E>(op: (S, nat) -> (Result<T, E>, S), s: S, maxRetries: int)
    ensures var run := Retry(op, s, maxRetries);
      run.invocations <= (if maxRetries >= 0 then maxRetries else 0)
      && forall i :: 0 <= i < |run.notified| ==> 1 <= run.notified[i].0 < maxRetries
  {
    RetryFromBounded(op, s, 1, maxRetries, None);
  }

  /** For an operation that sets the shared state to `v` after an outcome
      satisfying `p` and leaves it alone otherwise, the state an attempt
      starts in is `v` once an earlier attempt's outcome satisfied `p`, and
      the initial state until then. */
  lemma {:induction false} StateLatches<S, T, E>(op: (S, nat) -> (Result<T, E>, S), p: Result<T, E> -> bool, v: S, s: S, attempt: nat, j: nat)
    requires forall s': S, n: nat :: op(s', n).1 == if p(op(s', n).0) then v else s'
    ensures StateBefore(op, s, attempt, j) == if exists i :: 0 <= i < j && p(Outcome(op, s, attempt, i)) then v else s
    decreases j
  {
    if j > 0 {
      var next := op(s, attempt).1;
      var following := attempt + 1;
      StateLatches(op, p, v, next, following, j - 1);
      assert Outcome(op, s, attempt, 0) == op(s, attempt).0;
      if exists i :: 0 <= i < j - 1 && p(Outcome(op, next, following, i)) {
        var i :| 0 <= i < j - 1 && p(Outcome(op, next, following, i));
        OutcomeShift(op, s, attempt, i);
      }
      if exists i :: 0 <= i < j && p(Outcome(op, s, attempt, i)) {
        var i :| 0 <= i < j && p(Outcome(op, s, attempt, i));
        if i > 0 {
          OutcomeShift(op, s, attempt, i - 1);
        }
      }
    }
  }

  // ---------------------------------------------------------------------------
  // the loop

  /** `run` continued after `invocations` attempts that left the `onRetry`
      calls `notified`. */
  function After<S, T, E>(invocations: nat, notified: seq<(nat, E)>, run: Run<S, T, E>): Run<S, T, E> {
    Run(run.result, run.state, run.invocations + invocations, notified + run.notified)
  }

  /** One attempt of the specification, unfolded. */
  lemma RetryFromStep<S, T, E>(op: (S, nat) -> (Result<T, E>, S), s: S, attempt: nat, maxRetries: int, lastError: Option<E>)
    requires attempt <= maxRetries
    ensures var (outcome, next) := op(s, attempt);
      RetryFrom(op, s, attempt, maxRetries, lastError)
      == match outcome
         case Ok(v) => Run(Ok(v), next, 1, [])
         case Err(e) =>
           After(1, if attempt < maxRetries then [(attempt, e)] else [],
                 RetryFrom(op, next, attempt + 1, maxRetries, Some(e)))
  {
  }

  lemma AfterAfter<S, T, E>(k: nat, log: seq<(nat, E)>, k': nat, log': seq<(nat, E)>, run: Run<S, T, E>)
    ensures After(k, log, After(k', log', run)) == After(k + k', log + log', run)
  {
    assert log + (log' + run.notified) == (log + log') + run.notified;
  }

  /** `withRetry`: the counted loop over attempt numbers. It returns out of
      the loop on the first success and throws the last error after it. */
  method WithRetry<S, T, E>(op: (S, nat) -> (Result<T, E>, S), init: S, maxRetries: int)
    returns (result: Result<T, Option<E>>, state: S, invocations: nat, notified: seq<(nat, E)>)
    ensures Run(result, state, invocations, notified) == Retry(op, init, maxRetries)
  {
    var lastError: Option<E> := None;
    state := init;
    invocations := 0;
    notified := [];
    var attempt := 1;
    while attempt <= maxRetries
      invariant 1 <= attempt
      invariant Retry(op, init, maxRetries)
        == After(invocations, notified, RetryFrom(op, state, attempt, maxRetries, lastError))
      decreases maxRetries - attempt
    {
      RetryFromStep(op, state, attempt, maxRetries, lastError);
      var (outcome, next) := op(state, attempt);
      match outcome {
        case Ok(v) =>
          assert notified + [] == notified;
          result := Ok(v);
          invocations := invocations + 1;
          state := next;
          return;
        case Err(e) =>
          ghost var reported: seq<(nat, E)> := if attempt < maxRetries then [(attempt, e)] else [];
          AfterAfter(invocations, notified, 1, reported, RetryFrom(op, next, attempt + 1, maxRetries, Some(e)));
          invocations := invocations + 1;
          state := next;
          lastError := Some(e);
          if attempt < maxRetries {
            notified := notified + [(attempt, e)];
          } else {
            assert notified + [] == notified;
          }
      }
      attempt := attempt + 1;
    }
    result := Err(lastError);
  }
}
