/** Posting to the message API with exponential, jittered backoff. */
module Retry {
  import opened Wrappers

  /** The `error` entry of a JSON answer: missing, an object with or without a code, or something else. */
  datatype ErrorEntry = Missing | Entry(code: Option<int>) | NotAnObject

  /** The body of a response as far as the client looks at it. */
  datatype Body = NotJson | OtherJson | Object(error: ErrorEntry)

  /** What one attempt to post comes to. */
  datatype Outcome = Response(status: nat, body: Body) | NetworkError | OtherError

  /** The classes of errors the client raises for an answer of the API. */
  datatype ApiProblem = TokenExpired | ReEngagementRequired | SandboxRecipient | RateLimit | OtherProblem

  /** The parsed answer of a post, the error of a response, an exception, or the raise after the loop. */
  datatype Final =
    | MissingCredentials
    | Success(body: Body)
    | ApiError(problem: ApiProblem)
    | Raised(error: Outcome)
    | Exhausted

  predicate TransientStatus(status: nat) {
    status in {429, 500, 502, 503, 504}
  }

  predicate Transient(o: Outcome) {
    o == NetworkError || (o.Response? && TransientStatus(o.status))
  }

  /** The error code of a body; a body that is not a JSON object has none. */
  function ErrorCode(body: Body): Option<int> {
    if body.Object? && body.error.Entry? then body.error.code else None
  }

  /** The error raised for a response: the code decides before the status. */
  function Classify(status: nat, body: Body): (p: ApiProblem)
    ensures p == TokenExpired <==> body == Object(Entry(Some(190)))
    ensures p == ReEngagementRequired <==> body == Object(Entry(Some(131047)))
    ensures p == SandboxRecipient <==> body == Object(Entry(Some(131030)))
    ensures p == RateLimit
            <==> || body == Object(Entry(Some(130429)))
                 || (status == 429 && p !in {TokenExpired, ReEngagementRequired, SandboxRecipient})
  {
    match ErrorCode(body)
    case Some(190) => TokenExpired
    case Some(131047) => ReEngagementRequired
    case Some(131030) => SandboxRecipient
    case Some(130429) => RateLimit
    case _ => if status == 429 then RateLimit else OtherProblem
  }

  /**
   What an outcome means when it is not retried. An `error` entry that is no object makes the
   classification fail, and an answer that is not JSON makes the parsing of a success fail.
   */
  function Settle(o: Outcome): (f: Final)
    ensures f.Success? <==> o.Response? && o.status < 400 && o.body != NotJson
    ensures f.Success? ==> f.body == o.body
    ensures f.ApiError? <==> o.Response? && o.status >= 400 && o.body != Object(NotAnObject)
    ensures f.ApiError? ==> f.problem == Classify(o.status, o.body)
    ensures f.Success? || f.ApiError? || f == Raised(o)
  {
    match o
    case Response(status, body) =>
      if status >= 400 then
        if body == Object(NotAnObject) then Raised(o) else ApiError(Classify(status, body))
      else if body == NotJson then Raised(o)
      else Success(body)
    case _ => Raised(o)
  }

  function Pow2(n: nat): real {
    if n == 0 then 1.0 else 2.0 * Pow2(n - 1)
  }

  /** The sleep before retry k + 1. */
  function Pause(backoff: real, jitter: nat -> real, k: nat): real {
    backoff * Pow2(k) + jitter(k)
  }

  function TotalPause(backoff: real, jitter: nat -> real, k: nat): real {
    if k == 0 then 0.0 else TotalPause(backoff, jitter, k - 1) + Pause(backoff, jitter, k - 1)
  }

  /** The first k values, added up. */
  function Sum(jitter: nat -> real, k: nat): real {
    if k == 0 then 0.0 else Sum(jitter, k - 1) + jitter(k - 1)
  }

  /** All sleeps together are b(2^k - 1) and the jitter of each, between 0.1k and 0.5k in all. */
  lemma {:induction false} TotalPauseBound(backoff: real, jitter: nat -> real, k: nat)
    requires forall i :: 0.1 <= jitter(i) <= 0.5
    ensures TotalPause(backoff, jitter, k) == backoff * (Pow2(k) - 1.0) + Sum(jitter, k)
    ensures 0.1 * k as real <= Sum(jitter, k) <= 0.5 * k as real
  {
    if k > 0 {
      TotalPauseBound(backoff, jitter, k - 1);
      var p := Pow2(k - 1);
      assert Pow2(k) == p + p;
      assert backoff * (p - 1.0) + backoff * p == backoff * (p + p - 1.0);
    }
  }

  lemma {:induction false} Pow2Monotone(k: nat, n: nat)
    requires k <= n
    ensures 1.0 <= Pow2(k) <= Pow2(n)
  {
    if k < n {
      Pow2Monotone(k, n - 1);
    } else if n > 0 {
      Pow2Monotone(n - 1, n - 1);
    }
  }

  /**
   Retries transient outcomes up to maxRetries times. `outcome(k)` is what the post number k + 1
   comes to and `jitter(k)` the random part of the sleep after it. A rate limit reported before the
   retries are used up was told by the error code, not by the status.
   */
  method PostWithRetry(credentials: bool, maxRetries: int, backoff: real, outcome: nat -> Outcome, jitter: nat -> real)
    returns (result: Final, posts: nat, slept: real)
    ensures !credentials ==> result == MissingCredentials && posts == 0 && slept == 0.0
    ensures credentials && maxRetries < 0 ==> result == Exhausted && posts == 0 && slept == 0.0
    ensures credentials && maxRetries >= 0 ==>
              && 1 <= posts <= maxRetries + 1
              && (forall k :: 0 <= k < posts - 1 ==>
                    outcome(k) == NetworkError
                    || (outcome(k).Response? && outcome(k).status in {429, 500, 502, 503, 504}))
              && (outcome(posts - 1) == NetworkError
                  || (outcome(posts - 1).Response? && outcome(posts - 1).status in {429, 500, 502, 503, 504})
                  ==> posts == maxRetries + 1)
              && result == Settle(outcome(posts - 1))
              && slept == TotalPause(backoff, jitter, posts - 1)
    ensures credentials && maxRetries >= 0 && backoff >= 0.0 && (forall i :: 0.1 <= jitter(i) <= 0.5) ==>
              slept <= backoff * (Pow2(maxRetries) - 1.0) + 0.5 * maxRetries as real
    ensures result == Exhausted <==> credentials && maxRetries < 0
    ensures result == ApiError(RateLimit) && posts <= maxRetries ==>
              outcome(posts - 1).Response? && ErrorCode(outcome(posts - 1).body) == Some(130429)
  {
    posts, slept := 0, 0.0;
    if !credentials {
      return MissingCredentials, 0, 0.0;
    }
    var attempt := 0;
    while attempt <= maxRetries
      invariant 0 <= attempt && attempt <= if maxRetries >= 0 then maxRetries else 0
      invariant posts == attempt
      invariant slept == TotalPause(backoff, jitter, attempt)
      invariant forall k :: 0 <= k < attempt ==> Transient(outcome(k))
      decreases maxRetries - attempt
    {
      var o := outcome(posts);
      posts := posts + 1;
      if Transient(o) && attempt < maxRetries {
        attempt := attempt + 1;
        var sleepTime := backoff * Pow2(attempt - 1) + jitter(attempt - 1);
        slept := slept + sleepTime;
        continue;
      }
      SleepBound(backoff, jitter, attempt, maxRetries);
      return Settle(o), posts, slept;
    }
    result := Exhausted;
  }

  lemma {:induction false} SleepBound(backoff: real, jitter: nat -> real, k: nat, n: nat)
    requires k <= n
    ensures backoff >= 0.0 && (forall i :: 0.1 <= jitter(i) <= 0.5) ==>
              TotalPause(backoff, jitter, k) <= backoff * (Pow2(n) - 1.0) + 0.5 * n as real
  {
    if backoff >= 0.0 && forall i :: 0.1 <= jitter(i) <= 0.5 {
      TotalPauseBound(backoff, jitter, k);
      Pow2Monotone(k, n);
      MulMonotone(backoff, Pow2(k) - 1.0, Pow2(n) - 1.0);
    }
  }

  lemma MulMonotone(b: real, x: real, y: real)
    requires b >= 0.0 && x <= y
    ensures b * x <= b * y
  {
    assert b * (y - x) >= 0.0;
  }
}
