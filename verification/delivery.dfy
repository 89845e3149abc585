/**
 * The retrying single-message send of the scheduler and of the bot front end.
 * The transport is an oracle: `outcomes[a]` is what the send call of loop
 * iteration `a` ends with.
 */
module Delivery {
  import opened Common

  /** How one transport call ends: success or one of the four caught exception kinds. */
  datatype SendOutcome =
    | Delivered
    | RetryAfter(seconds: int)   // rate limit with the server's wait
    | NetworkError
    | ApiError                   // e.g. the recipient blocked the bot
    | OtherError

  /** The transport call the loop repeats: a text message or a photo with a caption. */
  datatype Request =
    | SendText(chat: int, text: string)
    | SendPhoto(chat: int, photo: string, caption: string)

  /** What a whole retrying send did: its verdict, how many transport calls, and the sleeps in order. */
  datatype SendReport = SendReport(ok: bool, calls: nat, sleeps: seq<int>)

  /** The linear network back-off before the next try, after failing iteration `attempt`. */
  function Backoff(attempt: nat): int
  {
    (attempt + 1) * 2
  }

  /** The sleep that follows outcome `o` of iteration `a`, when the loop goes on after it. */
  function WaitAfter(o: SendOutcome, a: nat): int
  {
    match o
    case RetryAfter(s) => s
    case _ => Backoff(a)
  }

  /** Prefix a run that started at a later iteration with the sleeps already taken. */
  function After(sleeps: seq<int>, r: SendReport): SendReport
  {
    r.(sleeps := sleeps + r.sleeps)
  }

  lemma AfterAfter(a: seq<int>, b: seq<int>, r: SendReport)
    ensures After(a + b, r) == After(a, After(b, r))
  {
    assert (a + b) + r.sleeps == a + (b + r.sleeps);
  }

  /**
   * The retry loop from iteration `attempt` on: every outcome, a rate limit
   * included, uses up one of the `maxRetries` iterations.
   */
  function Retry(outcomes: seq<SendOutcome>, maxRetries: int, attempt: nat): (r: SendReport)
    requires |outcomes| >= maxRetries
    ensures r.calls == attempt <==> attempt >= maxRetries
    ensures r.calls == attempt || attempt < r.calls <= maxRetries
    ensures attempt + |r.sleeps| <= r.calls
    decreases maxRetries - attempt
  {
    if attempt >= maxRetries then SendReport(false, attempt, [])
    else match outcomes[attempt]
      case Delivered => SendReport(true, attempt + 1, [])
      case RetryAfter(s) => After([s], Retry(outcomes, maxRetries, attempt + 1))
      case NetworkError =>
        if attempt < maxRetries - 1 then After([Backoff(attempt)], Retry(outcomes, maxRetries, attempt + 1))
        else SendReport(false, attempt + 1, [])
      case ApiError => SendReport(false, attempt + 1, [])
      case OtherError => SendReport(false, attempt + 1, [])
  }

  /**
   * The shared retry loop: `sent` lists the transport calls made, `sleeps`
   * the waits in order.
   */
  method SafeSend(request: Request, outcomes: seq<SendOutcome>, maxRetries: int)
    returns (ok: bool, sent: seq<Request>, sleeps: seq<int>)
    requires |outcomes| >= maxRetries
    ensures SendReport(ok, |sent|, sleeps) == Retry(outcomes, maxRetries, 0)
    ensures forall i :: 0 <= i < |sent| ==> sent[i] == request
  {
    ok, sent, sleeps := false, [], [];
    var attempt: nat := 0;
    while attempt < maxRetries
      invariant |sent| == attempt
      invariant forall i :: 0 <= i < |sent| ==> sent[i] == request
      invariant Retry(outcomes, maxRetries, 0) == After(sleeps, Retry(outcomes, maxRetries, attempt))
      decreases maxRetries - attempt
    {
      sent := sent + [request];
      match outcomes[attempt] {
      case Delivered =>
        assert Retry(outcomes, maxRetries, attempt) == SendReport(true, attempt + 1, []);
        ok := true;
        return;
      case RetryAfter(s) =>
        assert Retry(outcomes, maxRetries, attempt) == After([s], Retry(outcomes, maxRetries, attempt + 1));
        AfterAfter(sleeps, [s], Retry(outcomes, maxRetries, attempt + 1));
        sleeps := sleeps + [s];
      case NetworkError =>
        if attempt < maxRetries - 1 {
          assert Retry(outcomes, maxRetries, attempt) == After([Backoff(attempt)], Retry(outcomes, maxRetries, attempt + 1));
          AfterAfter(sleeps, [Backoff(attempt)], Retry(outcomes, maxRetries, attempt + 1));
          sleeps := sleeps + [Backoff(attempt)];
        } else {
          assert Retry(outcomes, maxRetries, attempt) == SendReport(false, attempt + 1, []);
          return;
        }
      case ApiError =>
        assert Retry(outcomes, maxRetries, attempt) == SendReport(false, attempt + 1, []);
        return;
      case OtherError =>
        assert Retry(outcomes, maxRetries, attempt) == SendReport(false, attempt + 1, []);
        return;
      }
      attempt := attempt + 1;
    }
  }

  /** The scheduler's variant: always a plain text message. */
  method SafeSendText(chat: int, text: string, outcomes: seq<SendOutcome>, maxRetries: int)
    returns (ok: bool, sent: seq<Request>, sleeps: seq<int>)
    requires |outcomes| >= maxRetries
    ensures SendReport(ok, |sent|, sleeps) == Retry(outcomes, maxRetries, 0)
    ensures forall i :: 0 <= i < |sent| ==> sent[i] == SendText(chat, text)
  {
    ok, sent, sleeps := SafeSend(SendText(chat, text), outcomes, maxRetries);
  }

  /** The request of the bot's variant: a photo with the text as caption when a photo id is truthy. */
  function BotRequest(chat: int, text: string, photo: Option<string>): (r: Request)
  {
    if Truthy(photo) then SendPhoto(chat, photo.value, text) else SendText(chat, text)
  }

  /** The bot's variant: the photo argument only chooses which transport call is repeated. */
  method SafeSendWithPhoto(chat: int, text: string, photo: Option<string>, outcomes: seq<SendOutcome>, maxRetries: int)
    returns (ok: bool, sent: seq<Request>, sleeps: seq<int>)
    requires |outcomes| >= maxRetries
    ensures SendReport(ok, |sent|, sleeps) == Retry(outcomes, maxRetries, 0)
    ensures forall i :: 0 <= i < |sent| ==>
      if Truthy(photo) then sent[i] == SendPhoto(chat, photo.value, text) else sent[i] == SendText(chat, text)
  {
    ok, sent, sleeps := SafeSend(BotRequest(chat, text, photo), outcomes, maxRetries);
  }

  // ---------------------------------------------------------------------------
  // Properties of the retry loop

  /** Never more transport calls than iterations; with no iterations, no call and failure. */
  lemma {:induction false} CallBound(outcomes: seq<SendOutcome>, maxRetries: int, attempt: nat)
    requires |outcomes| >= maxRetries
    requires attempt <= maxRetries || attempt == 0
    ensures var r := Retry(outcomes, maxRetries, attempt);
      attempt <= r.calls && (r.calls <= maxRetries || r.calls == 0)
    ensures maxRetries <= 0 ==> Retry(outcomes, maxRetries, attempt) == SendReport(false, 0, [])
    decreases maxRetries - attempt
  {
    if attempt < maxRetries {
      match outcomes[attempt]
      case RetryAfter(_) => CallBound(outcomes, maxRetries, attempt + 1);
      case NetworkError =>
        if attempt < maxRetries - 1 { CallBound(outcomes, maxRetries, attempt + 1); }
      case _ =>
    }
  }

  /**
   * Success iff the last call made was delivered; every earlier call asked for
   * a retry (a rate limit or a network error), so nothing is sent after the
   * first success and an API or other error is never followed by another call.
   * Conversely, a loop that stops before its last iteration stopped on a call
   * that did not ask for a retry.
   */
  lemma {:induction false} StopsAtFirstVerdict(outcomes: seq<SendOutcome>, maxRetries: int, attempt: nat)
    requires |outcomes| >= maxRetries
    requires attempt <= maxRetries || attempt == 0
    ensures var r := Retry(outcomes, maxRetries, attempt);
      && (r.ok <==> r.calls > attempt && outcomes[r.calls - 1] == Delivered)
      && (forall i :: attempt <= i < r.calls - 1 ==> outcomes[i].RetryAfter? || outcomes[i].NetworkError?)
      && (attempt < r.calls < maxRetries ==> !(outcomes[r.calls - 1].RetryAfter? || outcomes[r.calls - 1].NetworkError?))
    decreases maxRetries - attempt
  {
    CallBound(outcomes, maxRetries, attempt);
    if attempt < maxRetries {
      match outcomes[attempt]
      case RetryAfter(_) => StopsAtFirstVerdict(outcomes, maxRetries, attempt + 1);
      case NetworkError =>
        if attempt < maxRetries - 1 { StopsAtFirstVerdict(outcomes, maxRetries, attempt + 1); }
      case _ =>
    }
  }

  /** True iff some call succeeded: a delivered outcome among the calls made. */
  lemma OkIffSomeDelivered(outcomes: seq<SendOutcome>, maxRetries: int)
    requires |outcomes| >= maxRetries
    ensures var r := Retry(outcomes, maxRetries, 0);
      r.ok <==> exists i :: 0 <= i < r.calls && outcomes[i] == Delivered
  {
    StopsAtFirstVerdict(outcomes, maxRetries, 0);
    CallBound(outcomes, maxRetries, 0);
  }

  /**
   * An API error or any other error at the first call that reaches a verdict
   * ends the send with failure after that very call, with no further wait.
   */
  lemma ErrorIsFinal(outcomes: seq<SendOutcome>, maxRetries: int, a: nat)
    requires |outcomes| >= maxRetries
    requires a < maxRetries
    requires outcomes[a].ApiError? || outcomes[a].OtherError?
    requires forall i :: 0 <= i < a ==> outcomes[i].RetryAfter? || outcomes[i].NetworkError?
    ensures var r := Retry(outcomes, maxRetries, 0);
      !r.ok && r.calls == a + 1 && |r.sleeps| == a
  {
    ErrorIsFinalFrom(outcomes, maxRetries, 0, a);
  }

  lemma {:induction false} ErrorIsFinalFrom(outcomes: seq<SendOutcome>, maxRetries: int, attempt: nat, a: nat)
    requires |outcomes| >= maxRetries
    requires attempt <= a < maxRetries
    requires outcomes[a].ApiError? || outcomes[a].OtherError?
    requires forall i :: attempt <= i < a ==> outcomes[i].RetryAfter? || outcomes[i].NetworkError?
    ensures var r := Retry(outcomes, maxRetries, attempt);
      !r.ok && r.calls == a + 1 && |r.sleeps| == a - attempt
    decreases a - attempt
  {
    if attempt < a {
      ErrorIsFinalFrom(outcomes, maxRetries, attempt + 1, a);
    }
  }

  /** The sleep at position `k - start` is the wait owed after the retryable outcome of iteration `k`. */
  predicate SleepsFollow(outcomes: seq<SendOutcome>, sleeps: seq<int>, start: nat)
  {
    forall k :: start <= k < start + |sleeps| && k < |outcomes| ==>
      (outcomes[k].RetryAfter? || outcomes[k].NetworkError?) && sleeps[k - start] == WaitAfter(outcomes[k], k)
  }

  lemma SleepsFollowCons(outcomes: seq<SendOutcome>, w: int, rest: seq<int>, start: nat)
    requires start < |outcomes|
    requires outcomes[start].RetryAfter? || outcomes[start].NetworkError?
    requires w == WaitAfter(outcomes[start], start)
    requires SleepsFollow(outcomes, rest, start + 1)
    ensures SleepsFollow(outcomes, [w] + rest, start)
  {
    var t := [w] + rest;
    forall k | start <= k < start + |t| && k < |outcomes|
      ensures (outcomes[k].RetryAfter? || outcomes[k].NetworkError?) && t[k - start] == WaitAfter(outcomes[k], k)
    {
      if k > start {
        assert t[k - start] == rest[k - (start + 1)];
      }
    }
  }

  /**
   * The sleeps follow the outcomes one to one: after iteration `j` comes the
   * server's wait for a rate limit, or `(j+1)*2` for a network error; there is
   * one sleep fewer than calls, except when the loop ran out on a rate limit.
   */
  lemma {:induction false} SleepSchedule(outcomes: seq<SendOutcome>, maxRetries: int, attempt: nat)
    requires |outcomes| >= maxRetries
    requires attempt <= maxRetries || attempt == 0
    ensures attempt + |Retry(outcomes, maxRetries, attempt).sleeps| <= Retry(outcomes, maxRetries, attempt).calls
    ensures SleepsFollow(outcomes, Retry(outcomes, maxRetries, attempt).sleeps, attempt)
    ensures var r := Retry(outcomes, maxRetries, attempt);
      attempt + |r.sleeps| == r.calls ==>
        r.calls == attempt || (r.calls == maxRetries && outcomes[r.calls - 1].RetryAfter?)
    ensures var r := Retry(outcomes, maxRetries, attempt);
      r.calls > attempt ==>
        |r.sleeps| == if r.calls == maxRetries && outcomes[r.calls - 1].RetryAfter? then r.calls - attempt else r.calls - attempt - 1
    decreases maxRetries - attempt
  {
    if attempt < maxRetries && (outcomes[attempt].RetryAfter? || (outcomes[attempt].NetworkError? && attempt < maxRetries - 1)) {
      SleepSchedule(outcomes, maxRetries, attempt + 1);
      var rest := Retry(outcomes, maxRetries, attempt + 1);
      var r := Retry(outcomes, maxRetries, attempt);
      assert r.sleeps == [WaitAfter(outcomes[attempt], attempt)] + rest.sleeps;
      SleepsFollowCons(outcomes, WaitAfter(outcomes[attempt], attempt), rest.sleeps, attempt);
      assert r.calls == rest.calls;
      if attempt + |r.sleeps| == r.calls && rest.calls == attempt + 1 {
        // the next iteration was the last one, so this one was a rate limit
        assert attempt + 1 >= maxRetries;
        assert outcomes[r.calls - 1] == outcomes[attempt];
      }
    } else if attempt < maxRetries {
      assert Retry(outcomes, maxRetries, attempt) == SendReport(outcomes[attempt] == Delivered, attempt + 1, []);
    }
  }

  function Sum(s: seq<int>): int
  {
    if s == [] then 0 else s[0] + Sum(s[1..])
  }

  /**
   * Persistent network failure: every iteration is spent, the send fails, the
   * waits are 2, 4, ..., 2*(maxRetries-1), and they add up to maxRetries*(maxRetries-1).
   */
  lemma PersistentNetworkFailure(outcomes: seq<SendOutcome>, maxRetries: nat)
    requires |outcomes| >= maxRetries >= 1
    requires forall i :: 0 <= i < maxRetries ==> outcomes[i] == NetworkError
    ensures var r := Retry(outcomes, maxRetries, 0);
      && !r.ok && r.calls == maxRetries
      && |r.sleeps| == maxRetries - 1
      && (forall j :: 0 <= j < |r.sleeps| ==> r.sleeps[j] == 2 * (j + 1))
      && Sum(r.sleeps) == maxRetries * (maxRetries - 1)
  {
    NetworkFailureFrom(outcomes, maxRetries, 0);
  }

  lemma {:induction false} NetworkFailureFrom(outcomes: seq<SendOutcome>, maxRetries: nat, attempt: nat)
    requires |outcomes| >= maxRetries
    requires attempt < maxRetries
    requires forall i :: attempt <= i < maxRetries ==> outcomes[i] == NetworkError
    ensures var r := Retry(outcomes, maxRetries, attempt);
      && !r.ok && r.calls == maxRetries
      && |r.sleeps| == maxRetries - 1 - attempt
      && (forall j :: 0 <= j < |r.sleeps| ==> r.sleeps[j] == 2 * (attempt + j + 1))
      && Sum(r.sleeps) == maxRetries * (maxRetries - 1) - attempt * (attempt + 1)
    decreases maxRetries - attempt
  {
    if attempt < maxRetries - 1 {
      NetworkFailureFrom(outcomes, maxRetries, attempt + 1);
      var rest := Retry(outcomes, maxRetries, attempt + 1);
      assert Retry(outcomes, maxRetries, attempt).sleeps == [Backoff(attempt)] + rest.sleeps;
      assert ([Backoff(attempt)] + rest.sleeps)[1..] == rest.sleeps;
    }
  }

  /**
   * A rate limit is not free: when every call is rate limited the loop still
   * ends after `maxRetries` calls, with failure and one server-mandated sleep per call.
   */
  lemma {:induction false} RateLimitUsesAnIteration(outcomes: seq<SendOutcome>, maxRetries: int, attempt: nat)
    requires |outcomes| >= maxRetries
    requires attempt <= maxRetries
    requires forall i :: attempt <= i < maxRetries ==> outcomes[i].RetryAfter?
    ensures var r := Retry(outcomes, maxRetries, attempt);
      && !r.ok && r.calls == maxRetries
      && |r.sleeps| == maxRetries - attempt
      && (forall j :: 0 <= j < |r.sleeps| ==> r.sleeps[j] == outcomes[attempt + j].seconds)
    decreases maxRetries - attempt
  {
    if attempt < maxRetries {
      RateLimitUsesAnIteration(outcomes, maxRetries, attempt + 1);
    }
  }
}
