/** `get_data_from_blockcypher`: a bounded retry loop around one HTTP GET.

    The network is replaced by the sequence of answers the server would give to
    successive attempts, and `time.sleep` by the list of requested pauses. */
module Fetch {
  import opened Common

  const MaxRetries: nat := 5
  /** Pause after a 429 without a Retry-After header. */
  const DefaultRetryAfter: nat := 60
  /** Pause after any other failed attempt. */
  const RetryPause: nat := 2

  /** One attempt as the client sees it: a reply with its status code, its Retry-After
      header (if any) and its body (None when it is not valid JSON), or a request
      exception (connection error, timeout, ...). */
  datatype Response<D> =
    | Reply(status: int, retryAfter: Option<nat>, body: Option<D>)
    | RequestFailed

  /** The effect of one attempt: return a value now, or sleep and try again. */
  datatype Step<D> = Stop(result: Option<D>) | Pause(seconds: nat)

  function StepOf<D>(r: Response<D>): Step<D> {
    match r
    case RequestFailed => Pause(RetryPause)
    case Reply(status, retryAfter, body) =>
      if status == 200 then
        // a body that does not parse raises inside the try: since requests 2.27 its
        // JSONDecodeError is a RequestException, so it is handled like one
        if body.Some? then Stop(body) else Pause(RetryPause)
      else if status == 404 then Stop(None)
      else if status == 429 then Pause(retryAfter.GetOr(DefaultRetryAfter))
      else Pause(RetryPause)
  }

  /** A response ends the loop exactly when it is a parsed 200 or a 404. */
  predicate IsFinal<D>(r: Response<D>) {
    r.Reply? && ((r.status == 200 && r.body.Some?) || r.status == 404)
  }

  /** Seconds slept after a non-final response. */
  function SleepAfter<D>(r: Response<D>): nat {
    match r
    case Reply(status, retryAfter, _) =>
      if status == 429 then retryAfter.GetOr(DefaultRetryAfter) else RetryPause
    case RequestFailed => RetryPause
  }

  /** What one call does: the value returned, the number of requests issued and the
      pauses requested, in order. */
  datatype Run<D> = Run(result: Option<D>, attempts: nat, sleeps: seq<nat>)

  function WithSleepsBefore<D>(s: seq<nat>, r: Run<D>): Run<D> {
    r.(sleeps := s + r.sleeps)
  }

  /** The loop from attempt `attempt` on, given the server's answers to every attempt. */
  function FetchFrom<D>(responses: seq<Response<D>>, attempt: nat): Run<D>
    requires attempt <= MaxRetries <= |responses|
    decreases MaxRetries - attempt
  {
    if attempt == MaxRetries then Run(None, MaxRetries, [])
    else
      match StepOf(responses[attempt])
      case Stop(v) => Run(v, attempt + 1, [])
      case Pause(d) => WithSleepsBefore([d], FetchFrom(responses, attempt + 1))
  }

  function FetchRun<D>(responses: seq<Response<D>>): Run<D>
    requires MaxRetries <= |responses|
  {
    FetchFrom(responses, 0)
  }

  /** The pauses after the non-final responses `responses[from..upto]`. */
  function SleepsBetween<D>(responses: seq<Response<D>>, from: nat, upto: nat): (s: seq<nat>)
    requires from <= upto <= |responses|
    ensures |s| == upto - from
    ensures forall i :: 0 <= i < upto - from ==> s[i] == SleepAfter(responses[from + i])
  {
    seq<nat>(upto - from, i requires 0 <= i < upto - from => SleepAfter(responses[from + i]))
  }

  /** The client: a counted loop with early returns and a `continue` that skips the
      2-second pause after a rate-limit reply. */
  method GetDataFromBlockcypher<D>(responses: seq<Response<D>>) returns (data: Option<D>, attempts: nat, sleeps: seq<nat>)
    requires MaxRetries <= |responses|
    ensures Run(data, attempts, sleeps) == FetchRun(responses)
  {
    sleeps := [];
    attempts := 0;
    for attempt := 0 to MaxRetries
      invariant attempts == attempt
      invariant FetchRun(responses) == WithSleepsBefore(sleeps, FetchFrom(responses, attempt))
    {
      attempts := attempt + 1;
      var response := responses[attempt];
      if response.Reply? {
        if response.status == 200 {
          if response.body.Some? {
            return response.body, attempts, sleeps;
          }
        } else if response.status == 404 {
          return None, attempts, sleeps;
        } else if response.status == 429 {
          PauseThenContinue(responses, attempt, sleeps);
          sleeps := sleeps + [response.retryAfter.GetOr(DefaultRetryAfter)];
          continue;
        }
      }
      PauseThenContinue(responses, attempt, sleeps);
      sleeps := sleeps + [RetryPause];
    }
    data := None;
  }

  /** One pausing attempt moves the pause from the remaining run to the record of pauses taken. */
  lemma PauseThenContinue<D>(responses: seq<Response<D>>, attempt: nat, sleeps: seq<nat>)
    requires attempt < MaxRetries <= |responses|
    requires StepOf(responses[attempt]).Pause?
    ensures WithSleepsBefore(sleeps, FetchFrom(responses, attempt))
         == WithSleepsBefore(sleeps + [StepOf(responses[attempt]).seconds], FetchFrom(responses, attempt + 1))
  {
    var rest := FetchFrom(responses, attempt + 1);
    ConcatAssoc(sleeps, [StepOf(responses[attempt]).seconds], rest.sleeps);
  }

  /** Every run issues between one and `MaxRetries` requests and sleeps at most once per
      request; it returns a value only from a parsed 200. */
  lemma {:induction false} FetchFromBounds<D>(responses: seq<Response<D>>, attempt: nat)
    requires attempt < MaxRetries <= |responses|
    ensures var r := FetchFrom(responses, attempt);
      && attempt < r.attempts <= MaxRetries
      && |r.sleeps| <= r.attempts - attempt
      && (r.result.Some? ==> IsFinal(responses[r.attempts - 1]) && responses[r.attempts - 1].body == r.result)
    decreases MaxRetries - attempt
  {
    if StepOf(responses[attempt]).Pause? && attempt + 1 < MaxRetries {
      FetchFromBounds(responses, attempt + 1);
    }
  }

  lemma FetchBounds<D>(responses: seq<Response<D>>)
    requires MaxRetries <= |responses|
    ensures 1 <= FetchRun(responses).attempts <= MaxRetries
    ensures |FetchRun(responses).sleeps| <= FetchRun(responses).attempts
    ensures FetchRun(responses).result.Some? ==> responses[FetchRun(responses).attempts - 1].status == 200
  {
    FetchFromBounds(responses, 0);
  }

  /** If none of the answers before attempt `k` is final, the run reaches attempt `k`
      having slept once after each of them. */
  lemma {:induction false} FetchReaches<D>(responses: seq<Response<D>>, from: nat, k: nat)
    requires from <= k <= MaxRetries <= |responses|
    requires forall i :: from <= i < k ==> !IsFinal(responses[i])
    ensures FetchFrom(responses, from) == WithSleepsBefore(SleepsBetween(responses, from, k), FetchFrom(responses, k))
    decreases k - from
  {
    if from < k {
      FetchReaches(responses, from + 1, k);
      var rest := FetchFrom(responses, k);
      var d := SleepAfter(responses[from]);
      var later := SleepsBetween(responses, from + 1, k);
      assert StepOf(responses[from]) == Pause(d);
      assert SleepsBetween(responses, from, k) == [d] + later;
      ConcatAssoc([d], later, rest.sleeps);
    } else {
      assert SleepsBetween(responses, from, k) == [];
    }
  }

  /** The run stops at the first final answer: a parsed 200 returns its body and a 404
      returns None, with no further request and no further pause. */
  lemma FetchStopsAtFirstFinal<D>(responses: seq<Response<D>>, k: nat)
    requires k < MaxRetries <= |responses|
    requires forall i :: 0 <= i < k ==> !IsFinal(responses[i])
    requires IsFinal(responses[k])
    ensures FetchRun(responses) ==
      Run(if responses[k].status == 200 then responses[k].body else None, k + 1, SleepsBetween(responses, 0, k))
  {
    FetchReaches(responses, 0, k);
  }

  /** Without a final answer among the first `MaxRetries`, the run uses every attempt,
      sleeps after each of them (the last one included) and returns None. */
  lemma FetchGivesUp<D>(responses: seq<Response<D>>)
    requires MaxRetries <= |responses|
    requires forall i :: 0 <= i < MaxRetries ==> !IsFinal(responses[i])
    ensures FetchRun(responses) == Run(None, MaxRetries, SleepsBetween(responses, 0, MaxRetries))
  {
    FetchReaches(responses, 0, MaxRetries);
  }

  /** A 429 reached at attempt `k` costs one attempt and one pause of Retry-After
      seconds (60 without the header), and no 2-second pause; the loop then goes on
      with attempt `k + 1`. */
  lemma RateLimitedPause<D>(responses: seq<Response<D>>, k: nat, header: Option<nat>, body: Option<D>)
    requires k < MaxRetries <= |responses|
    requires forall i :: 0 <= i < k ==> !IsFinal(responses[i])
    requires responses[k] == Reply(429, header, body)
    ensures FetchRun(responses) ==
      WithSleepsBefore(SleepsBetween(responses, 0, k) + [header.GetOr(DefaultRetryAfter)], FetchFrom(responses, k + 1))
  {
    FetchReaches(responses, 0, k + 1);
    assert SleepsBetween(responses, 0, k + 1) == SleepsBetween(responses, 0, k) + [header.GetOr(DefaultRetryAfter)];
  }

  /** Any other status, an unparsable 200 body or a request exception at attempt `k`
      is followed by exactly a 2-second pause before attempt `k + 1`. */
  lemma TransientPause<D>(responses: seq<Response<D>>, k: nat)
    requires k < MaxRetries <= |responses|
    requires forall i :: 0 <= i < k ==> !IsFinal(responses[i])
    requires !IsFinal(responses[k]) && !(responses[k].Reply? && responses[k].status == 429)
    ensures FetchRun(responses) ==
      WithSleepsBefore(SleepsBetween(responses, 0, k) + [RetryPause], FetchFrom(responses, k + 1))
  {
    FetchReaches(responses, 0, k + 1);
    assert SleepsBetween(responses, 0, k + 1) == SleepsBetween(responses, 0, k) + [RetryPause];
  }

  /** A rate-limit reply asking for 2 seconds, then a good reply: two requests, one
      2-second pause, and the body of the second reply. */
  lemma RateLimitedThenSuccess<D>(responses: seq<Response<D>>, body: Option<D>, doc: D)
    requires MaxRetries <= |responses|
    requires responses[0] == Reply(429, Some(2), body)
    requires responses[1].Reply? && responses[1].status == 200 && responses[1].body == Some(doc)
    ensures FetchRun(responses) == Run(Some(doc), 2, [2])
  {
    FetchStopsAtFirstFinal(responses, 1);
  }
}
