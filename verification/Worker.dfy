/** The worker runtime: one handler per event name, run again when it throws, up to a bound. */
module Worker {
  import opened Options

  /**
   * A handler as a transformer of the stored state: what attempt number n leaves behind, and the error it throws, if
   * any. An attempt that throws may have changed the state before.
   */
  type Handler<!S> = (S, nat) -> (S, Option<string>)

  /** How `handle` ends. Only `Threw` is an exception; the other three return normally. */
  datatype Outcome = Unhandled | Processed | Threw(error: string) | NeverTried

  /** The retry loop after the given number of attempts. */
  function RetryFrom<S>(handler: Handler<S>, maxRetries: int, s: S, attempt: nat): (S, Outcome)
    decreases maxRetries - attempt
  {
    if attempt >= maxRetries then (s, NeverTried)
    else
      var (t, error) := handler(s, attempt + 1);
      if error.None? then (t, Processed)
      else if attempt + 1 >= maxRetries then (t, Threw(error.value))
      else RetryFrom(handler, maxRetries, t, attempt + 1)
  }

  class WorkerRuntime<!S> {
    const maxRetries: int
    var registry: map<string, Handler<S>>

    constructor (maxRetries: int)
      ensures this.maxRetries == maxRetries && registry == map[]
    {
      this.maxRetries := maxRetries;
      registry := map[];
    }

    method Register(eventName: string, handler: Handler<S>)
      modifies this
      ensures registry == old(registry)[eventName := handler]
    {
      registry := registry[eventName := handler];
    }

    method Handle(eventName: string, s: S) returns (after: S, outcome: Outcome)
      ensures eventName !in registry ==> after == s && outcome == Unhandled
      ensures eventName in registry ==> (after, outcome) == RetryFrom(registry[eventName], maxRetries, s, 0)
    {
      after := s;
      if eventName !in registry {
        return after, Unhandled;
      }
      var handler := registry[eventName];
      var attempt := 0;
      while attempt < maxRetries
        invariant attempt == 0 || attempt < maxRetries
        invariant RetryFrom(handler, maxRetries, after, attempt) == RetryFrom(handler, maxRetries, s, 0)
        decreases maxRetries - attempt
      {
        attempt := attempt + 1;
        var (next, error) := handler(after, attempt);
        after := next;
        if error.None? {
          return after, Processed;
        }
        if attempt >= maxRetries {
          return after, Threw(error.value);
        }
      }
      outcome := NeverTried;
    }
  }

  /** The state after n attempts of which none but perhaps the last succeeded. */
  ghost function AfterAttempts<S>(handler: Handler<S>, s: S, n: nat): S {
    if n == 0 then s else handler(AfterAttempts(handler, s, n - 1), n).0
  }

  ghost predicate Throws<S>(handler: Handler<S>, s: S, n: nat)
    requires n > 0
  {
    handler(AfterAttempts(handler, s, n - 1), n).1.Some?
  }

  lemma {:induction false} RetryMeansFrom<S>(handler: Handler<S>, maxRetries: int, s: S, k: nat) returns (n: nat)
    requires k < maxRetries && forall j :: 0 < j <= k ==> Throws(handler, s, j)
    ensures k < n <= maxRetries
    ensures var (t, outcome) := RetryFrom(handler, maxRetries, AfterAttempts(handler, s, k), k);
      && t == AfterAttempts(handler, s, n)
      && (forall j :: 0 < j < n ==> Throws(handler, s, j))
      && (if Throws(handler, s, n) then n == maxRetries && outcome.Threw? else outcome == Processed)
    decreases maxRetries - k
  {
    if Throws(handler, s, k + 1) && k + 1 < maxRetries {
      n := RetryMeansFrom(handler, maxRetries, s, k + 1);
    } else {
      n := k + 1;
    }
  }

  /**
   * With at least one attempt allowed, `handle` makes n attempts, each but the last of which threw; it succeeds if
   * the last did not throw, and throws if it did, and then all allowed attempts were made.
   */
  lemma RetryMeans<S>(handler: Handler<S>, maxRetries: int, s: S) returns (n: nat)
    requires maxRetries >= 1
    ensures 1 <= n <= maxRetries
    ensures var (t, outcome) := RetryFrom(handler, maxRetries, s, 0);
      && t == AfterAttempts(handler, s, n)
      && (forall j :: 0 < j < n ==> Throws(handler, s, j))
      && (if Throws(handler, s, n) then n == maxRetries && outcome.Threw? else outcome == Processed)
  {
    n := RetryMeansFrom(handler, maxRetries, s, 0);
  }

  /** Without a positive bound the event is dropped: `handle` returns normally and the handler never ran. */
  lemma NeverTriedIff<S>(handler: Handler<S>, maxRetries: int, s: S)
    ensures RetryFrom(handler, maxRetries, s, 0).1.NeverTried? <==> maxRetries <= 0
    ensures maxRetries <= 0 ==> RetryFrom(handler, maxRetries, s, 0).0 == s
  {
    if maxRetries >= 1 {
      var n := RetryMeans(handler, maxRetries, s);
    }
  }
}
