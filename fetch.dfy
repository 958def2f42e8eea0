/**
 * The command's configuration guard and its fetch-with-retry loop. The
 * network is not modelled: each attempt's outcome is given, in order, and
 * the loop's sleeps are returned as the list of delays it would wait.
 */
module Fetch {
  import opened Wrappers
  import opened Raw

  /** `MGNREGA_RESOURCE_ID` and `MGNREGA_API_KEY`, each unset or a string. */
  datatype Config = Config(resourceId: Option<string>, apiKey: Option<string>)

  /** What `os.getenv` gives for a variable: `None` when it is unset. */
  function EnvValue(o: Option<string>): Json {
    if o.None? then JNull else JStr(o.value)
  }

  /** `not RESOURCE_ID or not API_KEY` is false: both are set and non-empty. */
  predicate Configured(c: Config)
    ensures Configured(c) <==> Truthy(EnvValue(c.resourceId)) && Truthy(EnvValue(c.apiKey))
  {
    c.resourceId.Some? && c.resourceId.value != [] && c.apiKey.Some? && c.apiKey.value != []
  }

  /** `retries = 3`. */
  const Retries: nat := 3

  /**
   * What one attempt comes to: `requests.get` raised, or it returned a
   * response with a status code. `records` is `res.json().get("records", [])`
   * for a body that is a JSON object, and `None` when reading the body raised.
   */
  datatype Outcome =
    | Raised
    | Response(status: int, records: Option<seq<RawItem>>)

  /** What attempt `k` comes to; an attempt past the end of the given outcomes raises. */
  function Attempt(outcomes: seq<Outcome>, k: nat): (o: Outcome)
    ensures k >= |outcomes| ==> o == Raised
  {
    if k < |outcomes| then outcomes[k] else Raised
  }

  /** The attempt that ends the loop: status 200 and a readable body. */
  predicate Succeeded(o: Outcome) {
    o.Response? && o.status == 200 && o.records.Some?
  }

  /** `2 ** k`. */
  function Pow2(k: nat): nat {
    if k == 0 then 1 else 2 * Pow2(k - 1)
  }

  /** The sleeps after `n` failed attempts: `2 ** 0`, `2 ** 1`, ... */
  function Backoff(n: nat): (r: seq<nat>)
    ensures |r| == n
    ensures forall k :: 0 <= k < n ==> r[k] == Pow2(k)
  {
    if n == 0 then [] else Backoff(n - 1) + [Pow2(n - 1)]
  }

  /** The first attempt from `from` on, among the first `Retries`, that succeeds. */
  function FirstSuccess(outcomes: seq<Outcome>, from: nat): (r: Option<nat>)
    requires from <= Retries
    ensures r.Some? ==> from <= r.value < Retries && Succeeded(Attempt(outcomes, r.value))
    ensures r.Some? ==> forall k :: from <= k < r.value ==> !Succeeded(Attempt(outcomes, k))
    ensures r.None? ==> forall k :: from <= k < Retries ==> !Succeeded(Attempt(outcomes, k))
    decreases Retries - from
  {
    if from == Retries then None
    else if Succeeded(Attempt(outcomes, from)) then Some(from)
    else FirstSuccess(outcomes, from + 1)
  }

  /**
   * The retry loop. `Attempt(outcomes, k)` is what attempt `k` comes to. It returns
   * the records list (`None` when no attempt succeeded), the number of
   * attempts made and the delays slept, in order.
   */
  method FetchRecords(outcomes: seq<Outcome>) returns (data: Option<seq<RawItem>>, attempts: nat, delays: seq<nat>)
    ensures attempts <= Retries
    ensures var first := FirstSuccess(outcomes, 0);
            first.Some? ==> && data == Some(Attempt(outcomes, first.value).records.value)
                            && attempts == first.value + 1
                            && delays == Backoff(first.value)
    ensures var first := FirstSuccess(outcomes, 0);
            first.None? ==> data.None? && attempts == Retries && delays == Backoff(Retries)
  {
    data := None;
    attempts := 0;
    delays := [];
    for attempt := 0 to Retries
      invariant attempts == attempt && data.None?
      invariant delays == Backoff(attempt)
      invariant forall k :: 0 <= k < attempt ==> !Succeeded(Attempt(outcomes, k))
    {
      attempts := attempts + 1;
      var o := Attempt(outcomes, attempt);
      if o.Raised? {
        delays := delays + [Pow2(attempt)];
      } else if o.status != 200 {
        delays := delays + [Pow2(attempt)];
      } else if o.records.None? {
        delays := delays + [Pow2(attempt)];
      } else {
        data := Some(o.records.value);
        FirstSuccessIs(outcomes, attempt);
        return;
      }
    }
    FirstSuccessNone(outcomes);
  }

  /** When attempt `i` is the first to succeed, `FirstSuccess` finds it. */
  lemma {:induction false} FirstSuccessIs(outcomes: seq<Outcome>, i: nat)
    requires i < Retries && Succeeded(Attempt(outcomes, i))
    requires forall k :: 0 <= k < i ==> !Succeeded(Attempt(outcomes, k))
    ensures FirstSuccess(outcomes, 0) == Some(i)
  {
  }

  /** When no attempt succeeds, `FirstSuccess` finds none. */
  lemma {:induction false} FirstSuccessNone(outcomes: seq<Outcome>)
    requires forall k :: 0 <= k < Retries ==> !Succeeded(Attempt(outcomes, k))
    ensures FirstSuccess(outcomes, 0).None?
  {
  }

  /** Three failed attempts sleep 1, 2 and 4 seconds, the last one included. */
  lemma {:induction false} BackoffOfAllRetries()
    ensures Backoff(Retries) == [1, 2, 4]
  {
    assert Pow2(0) == 1 && Pow2(1) == 2 && Pow2(2) == 4;
    assert Backoff(1) == [1];
    assert Backoff(2) == [1, 2];
  }
}
